/** The migration ledger (database/migrations/manager.py): a table of applied versions and its copy in
    memory, under steps that can fail anywhere. */
module Migrations {
  /** A *.py file of the directory; the manager itself is one, without upgrade. */
  datatype File = File(version: string, hasUpgrade: bool, hasDowngrade: bool)

  /** Where a step fails: importing the module, running its function, writing the ledger, or after the
      commit, when the table has changed and the error keeps memory from following. */
  datatype Fault = Healthy | ImportFails | ScriptFails | RecordFails | CommitUnseen

  /** `ran` lists the upgrades that ran to their end, recorded or not. */
  datatype Ledger = Ledger(memory: set<string>, table: set<string>, ran: seq<string>)

  datatype Result = Result(ledger: Ledger, ok: bool)

  function Initialize(l: Ledger): Ledger {
    l.(memory := l.table)
  }

  /** Files whose version is not in memory, in the order of the listing (sorted by name). */
  function Pending(files: seq<File>, memory: set<string>): seq<File> {
    if files == [] then []
    else Pending(files[..|files| - 1], memory) +
         (if files[|files| - 1].version in memory then [] else [files[|files| - 1]])
  }

  /** apply_migration; the table's primary key refuses a version that it has. */
  function Apply(l: Ledger, f: File, fault: Fault): Result {
    if fault.ImportFails? then Result(l, false)
    else if !f.hasUpgrade then Result(l, true)
    else if fault.ScriptFails? then Result(l, false)
    else
      var ran := l.(ran := l.ran + [f.version]);
      if fault.RecordFails? || f.version in l.table then Result(ran, false)
      else if fault.CommitUnseen? then Result(ran.(table := l.table + {f.version}), false)
      else Result(Ledger(l.memory + {f.version}, l.table + {f.version}, ran.ran), true)
  }

  /** rollback_migration */
  function Rollback(l: Ledger, f: File, fault: Fault): Result {
    if fault.ImportFails? then Result(l, false)
    else if !f.hasDowngrade then Result(l, true)
    else if fault.ScriptFails? || fault.RecordFails? then Result(l, false)
    else if fault.CommitUnseen? then Result(l.(table := l.table - {f.version}), false)
    else Result(Ledger(l.memory - {f.version}, l.table - {f.version}, l.ran), true)
  }

  /** The loop of apply_all_pending, up to the first failure. */
  function ApplyEach(l: Ledger, pending: seq<File>, faults: nat -> Fault): Result {
    if pending == [] then Result(l, true)
    else
      var n := |pending| - 1;
      var before := ApplyEach(l, pending[..n], faults);
      if before.ok then Apply(before.ledger, pending[n], faults(n)) else before
  }

  function ApplyAll(l: Ledger, files: seq<File>, faults: nat -> Fault): Result {
    ApplyEach(l, Pending(files, l.memory), faults)
  }

  class MigrationManager {
    var memory: set<string>
    var table: set<string>
    ghost var ran: seq<string>

    constructor (table: set<string>)
      ensures State() == Ledger({}, table, [])
    {
      memory, this.table, ran := {}, table, [];
    }

    ghost function State(): Ledger
      reads this
    {
      Ledger(memory, table, ran)
    }

    method ReadLedger()
      modifies this
      ensures State() == Initialize(old(State()))
    {
      memory := table;
    }

    method GetPending(files: seq<File>) returns (pending: seq<File>)
      ensures pending == Pending(files, memory)
    {
      pending := [];
      for i := 0 to |files|
        invariant pending == Pending(files[..i], memory)
      {
        assert files[..i + 1][..i] == files[..i];
        if files[i].version !in memory {
          pending := pending + [files[i]];
        }
      }
      assert files[..|files|] == files;
    }

    method ApplyOne(f: File, fault: Fault) returns (ok: bool)
      modifies this
      ensures Result(State(), ok) == Apply(old(State()), f, fault)
    {
      if fault.ImportFails? {
        return false;
      }
      if !f.hasUpgrade {
        return true;
      }
      if fault.ScriptFails? {
        return false;
      }
      ran := ran + [f.version];
      if fault.RecordFails? || f.version in table {
        return false;
      }
      table := table + {f.version};
      if fault.CommitUnseen? {
        return false;
      }
      memory := memory + {f.version};
      ok := true;
    }

    method RollbackOne(f: File, fault: Fault) returns (ok: bool)
      modifies this
      ensures Result(State(), ok) == Rollback(old(State()), f, fault)
    {
      if fault.ImportFails? {
        return false;
      }
      if !f.hasDowngrade {
        return true;
      }
      if fault.ScriptFails? || fault.RecordFails? {
        return false;
      }
      table := table - {f.version};
      if fault.CommitUnseen? {
        return false;
      }
      memory := memory - {f.version};
      ok := true;
    }

    method ApplyAllPending(files: seq<File>, faults: nat -> Fault) returns (ok: bool)
      modifies this
      ensures Result(State(), ok) == ApplyAll(old(State()), files, faults)
    {
      var pending := GetPending(files);
      ok := true;
      ghost var start := State();
      for i := 0 to |pending|
        invariant ok && Result(State(), ok) == ApplyEach(start, pending[..i], faults)
      {
        assert pending[..i + 1][..i] == pending[..i];
        ok := ApplyOne(pending[i], faults(i));
        if !ok {
          FailureIsFinal(start, pending, faults, i + 1);
          return;
        }
      }
      assert pending[..|pending|] == pending;
    }
  }

  lemma {:induction false} FailureIsFinal(l: Ledger, pending: seq<File>, faults: nat -> Fault, k: nat)
    requires k <= |pending| && !ApplyEach(l, pending[..k], faults).ok
    ensures ApplyEach(l, pending, faults) == ApplyEach(l, pending[..k], faults)
  {
    if k == |pending| {
      assert pending[..k] == pending;
    } else {
      var n := |pending| - 1;
      assert pending[..n][..k] == pending[..k];
      FailureIsFinal(l, pending[..n], faults, k);
    }
  }

  // ---------------------------------------------------------------------------------------------
  // Memory and table agree
  // ---------------------------------------------------------------------------------------------

  datatype Op =
    | ApplyFile(f: File, fault: Fault)
    | RollbackFile(g: File, how: Fault)
    | ApplyPending(files: seq<File>, faults: nat -> Fault)

  function Run(l: Ledger, ops: seq<Op>): Ledger {
    if ops == [] then l
    else
      var before := Run(l, ops[..|ops| - 1]);
      match ops[|ops| - 1]
      case ApplyFile(f, fault) => Apply(before, f, fault).ledger
      case RollbackFile(f, fault) => Rollback(before, f, fault).ledger
      case ApplyPending(files, faults) => ApplyAll(before, files, faults).ledger
  }

  ghost predicate InStep(l: Ledger) {
    l.memory == l.table
  }

  /** One step keeps them together exactly when it does not commit unseen. */
  lemma StepKeepsInStep(l: Ledger, f: File, fault: Fault)
    requires InStep(l)
    ensures InStep(Apply(l, f, fault).ledger) <==> !(fault.CommitUnseen? && f.hasUpgrade && f.version !in l.table)
    ensures InStep(Rollback(l, f, fault).ledger) <==> !(fault.CommitUnseen? && f.hasDowngrade && f.version in l.table)
  {
    if f.version !in l.table { assert f.version in l.table + {f.version}; }
    if f.version in l.table { assert f.version !in l.table - {f.version}; }
    assert f.version !in l.table ==> l.table - {f.version} == l.table;
  }

  /** Every commit that reaches the table is seen. */
  ghost predicate CommitsAreSeen(op: Op) {
    match op
    case ApplyFile(_, fault) => !fault.CommitUnseen?
    case RollbackFile(_, fault) => !fault.CommitUnseen?
    case ApplyPending(_, faults) => forall i :: !faults(i).CommitUnseen?
  }

  lemma {:induction false} EachKeepsInStep(l: Ledger, pending: seq<File>, faults: nat -> Fault)
    requires InStep(l) && forall i :: !faults(i).CommitUnseen?
    ensures InStep(ApplyEach(l, pending, faults).ledger)
  {
    if pending != [] { EachKeepsInStep(l, pending[..|pending| - 1], faults); }
  }

  /** Whatever is applied and rolled back, and wherever it fails, memory and table agree - unless a
      commit goes unseen, which only the next start repairs. */
  lemma {:induction false} MemoryIsTable(l: Ledger, ops: seq<Op>)
    requires forall op :: op in ops ==> CommitsAreSeen(op)
    ensures InStep(Run(Initialize(l), ops))
  {
    if ops != [] {
      var n := |ops| - 1;
      MemoryIsTable(l, ops[..n]);
      assert CommitsAreSeen(ops[n]);
      if ops[n].ApplyPending? {
        var before := Run(Initialize(l), ops[..n]);
        EachKeepsInStep(before, Pending(ops[n].files, before.memory), ops[n].faults);
      }
    }
  }

  // ---------------------------------------------------------------------------------------------
  // What a run over all pending files does
  // ---------------------------------------------------------------------------------------------

  /** Different files of a directory have different stems. */
  ghost predicate DistinctVersions(files: seq<File>) {
    forall i, j :: 0 <= i < j < |files| ==> files[i].version != files[j].version
  }

  /** The versions of the files that define upgrade, in order. */
  function Upgrades(files: seq<File>): seq<string> {
    if files == [] then []
    else Upgrades(files[..|files| - 1]) + (if files[|files| - 1].hasUpgrade then [files[|files| - 1].version] else [])
  }

  function Elements(s: seq<string>): set<string> {
    set x | x in s
  }

  lemma {:induction false} PendingMembers(files: seq<File>, memory: set<string>, f: File)
    ensures f in Pending(files, memory) <==> f in files && f.version !in memory
  {
    if files != [] {
      var n := |files| - 1;
      PendingMembers(files[..n], memory, f);
      assert files == files[..n] + [files[n]];
    }
  }

  lemma {:induction false} PendingDistinct(files: seq<File>, memory: set<string>)
    requires DistinctVersions(files)
    ensures DistinctVersions(Pending(files, memory))
  {
    if files != [] {
      var n := |files| - 1;
      PendingDistinct(files[..n], memory);
      var before := Pending(files[..n], memory);
      forall i | 0 <= i < |before| ensures before[i].version != files[n].version {
        assert before[i] in before;
        PendingMembers(files[..n], memory, before[i]);
      }
    }
  }

  lemma {:induction false} UpgradesMembers(files: seq<File>, v: string)
    ensures v in Upgrades(files) <==> exists f :: f in files && f.hasUpgrade && f.version == v
  {
    if files != [] {
      var n := |files| - 1;
      UpgradesMembers(files[..n], v);
      assert files == files[..n] + [files[n]];
      assert files[n] in files;
    }
  }

  /** The ledger after the files of `done` were applied. */
  ghost predicate Applied(l: Ledger, done: seq<File>, after: Ledger) {
    && after.table == l.table + Elements(Upgrades(done))
    && after.memory == l.memory + Elements(Upgrades(done))
    && after.ran == l.ran + Upgrades(done)
  }

  lemma UpgradesAppend(front: seq<File>, f: File)
    ensures Upgrades(front + [f]) == if f.hasUpgrade then Upgrades(front) + [f.version] else Upgrades(front)
    ensures Elements(Upgrades(front + [f]))
         == if f.hasUpgrade then Elements(Upgrades(front)) + {f.version} else Elements(Upgrades(front))
  {
    assert (front + [f])[..|front|] == front;
    assert Upgrades(front) + [] == Upgrades(front);
  }

  lemma AppliedNext(l: Ledger, front: seq<File>, f: File, before: Ledger, fault: Fault)
    requires Applied(l, front, before) && Apply(before, f, fault).ok
    ensures Applied(l, front + [f], Apply(before, f, fault).ledger)
  {
    UpgradesAppend(front, f);
    if f.hasUpgrade {
      assert l.ran + (Upgrades(front) + [f.version]) == l.ran + Upgrades(front) + [f.version];
    }
  }

  /** The loop, as far as it succeeds. */
  lemma {:induction false} AppliedUpTo(l: Ledger, pending: seq<File>, faults: nat -> Fault)
    requires ApplyEach(l, pending, faults).ok
    ensures Applied(l, pending, ApplyEach(l, pending, faults).ledger)
  {
    if pending == [] {
      assert l.ran + [] == l.ran;
    } else {
      var n := |pending| - 1;
      AppliedUpTo(l, pending[..n], faults);
      AppliedNext(l, pending[..n], pending[n], ApplyEach(l, pending[..n], faults).ledger, faults(n));
      assert pending == pending[..n] + [pending[n]];
    }
  }

  lemma PendingAreNew(l: Ledger, files: seq<File>)
    requires InStep(l)
    ensures forall f :: f in Pending(files, l.memory) ==> f.version !in l.table
  {
    forall f | f in Pending(files, l.memory) ensures f.version !in l.table {
      PendingMembers(files, l.memory, f);
    }
  }

  lemma {:induction false} FirstFailure(l: Ledger, pending: seq<File>, faults: nat -> Fault) returns (k: nat)
    requires !ApplyEach(l, pending, faults).ok
    ensures k < |pending|
    ensures ApplyEach(l, pending[..k], faults).ok
    ensures !Apply(ApplyEach(l, pending[..k], faults).ledger, pending[k], faults(k)).ok
    ensures ApplyEach(l, pending, faults) == Apply(ApplyEach(l, pending[..k], faults).ledger, pending[k], faults(k))
  {
    k := |pending| - 1;
    if !ApplyEach(l, pending[..k], faults).ok {
      var n := k;
      k := FirstFailure(l, pending[..n], faults);
      assert pending[..n][..k] == pending[..k];
    }
  }

  /** A run that fails, fails at one pending file: the ledger then has exactly the pending files before
      it that define upgrade, in name order, and the file itself was at most run, not recorded - in
      memory at least: its record is in the table when just that commit went unseen. */
  lemma FailedRun(l: Ledger, files: seq<File>, faults: nat -> Fault) returns (k: nat)
    requires InStep(l) && DistinctVersions(files) && !ApplyAll(l, files, faults).ok
    ensures var pending, after := Pending(files, l.memory), ApplyAll(l, files, faults).ledger;
            && k < |pending| && !faults(k).Healthy?
            && after.memory == l.memory + Elements(Upgrades(pending[..k]))
            && after.table == after.memory + (if faults(k).CommitUnseen? then {pending[k].version} else {})
            && after.ran == l.ran + Upgrades(pending[..k])
                          + (if faults(k).RecordFails? || faults(k).CommitUnseen? then [pending[k].version] else [])
  {
    var pending := Pending(files, l.memory);
    k := FirstFailure(l, pending, faults);
    PendingDistinct(files, l.memory);
    PendingAreNew(l, files);
    AppliedUpTo(l, pending[..k], faults);
    UpgradesMembers(pending[..k], pending[k].version);
    NotAmong(pending, k);
  }

  lemma NotAmong(pending: seq<File>, k: nat)
    requires DistinctVersions(pending) && k < |pending|
    ensures forall g :: g in pending[..k] ==> g.version != pending[k].version
    ensures pending[k] in pending
  {
    forall g | g in pending[..k] ensures g.version != pending[k].version {
      var i :| 0 <= i < k && pending[..k][i] == g;
      assert pending[i] == g;
    }
  }

  /** After a run without failure exactly the files without upgrade are still pending, every pending
      upgrade ran once, and another run changes nothing. */
  lemma SuccessfulRun(l: Ledger, files: seq<File>, faults: nat -> Fault, f: File)
    requires InStep(l) && DistinctVersions(files) && ApplyAll(l, files, faults).ok
    ensures var after := ApplyAll(l, files, faults).ledger;
            && Applied(l, Pending(files, l.memory), after)
            && (f in Pending(files, after.memory) <==> f in Pending(files, l.memory) && !f.hasUpgrade)
  {
    var pending := Pending(files, l.memory);
    PendingDistinct(files, l.memory);
    AppliedUpTo(l, pending, faults);
    var after := ApplyAll(l, files, faults).ledger;
    PendingMembers(files, after.memory, f);
    PendingMembers(files, l.memory, f);
    UpgradesMembers(pending, f.version);
    if f in pending && !f.hasUpgrade && f.version in Upgrades(pending) {
      var g :| g in pending && g.hasUpgrade && g.version == f.version;
      SameVersionSameFile(pending, f, g);
    }
  }

  lemma SameVersionSameFile(files: seq<File>, f: File, g: File)
    requires DistinctVersions(files) && f in files && g in files && f.version == g.version
    ensures f == g
  {
    var i :| 0 <= i < |files| && files[i] == f;
    var j :| 0 <= j < |files| && files[j] == g;
    assert !(i < j) && !(j < i);
  }

  lemma {:induction false} NoUpgradesNoEffect(l: Ledger, pending: seq<File>, faults: nat -> Fault)
    requires forall f :: f in pending ==> !f.hasUpgrade
    ensures ApplyEach(l, pending, faults).ledger == l
  {
    if pending != [] { NoUpgradesNoEffect(l, pending[..|pending| - 1], faults); }
  }

  lemma SecondRunIsIdle(l: Ledger, files: seq<File>, faults: nat -> Fault, again: nat -> Fault)
    requires InStep(l) && DistinctVersions(files) && ApplyAll(l, files, faults).ok
    ensures var after := ApplyAll(l, files, faults).ledger;
            ApplyAll(after, files, again).ledger == after
  {
    var after := ApplyAll(l, files, faults).ledger;
    var pending := Pending(files, after.memory);
    forall f | f in pending ensures !f.hasUpgrade {
      SuccessfulRun(l, files, faults, f);
    }
    NoUpgradesNoEffect(after, pending, again);
  }

  lemma {:induction false} EachAddsOnlyUpgrades(l: Ledger, pending: seq<File>, faults: nat -> Fault, v: string)
    requires v in ApplyEach(l, pending, faults).ledger.memory && v !in l.memory
    ensures exists f :: f in pending && f.hasUpgrade && f.version == v
  {
    var n := |pending| - 1;
    if pending != [] {
      if v in ApplyEach(l, pending[..n], faults).ledger.memory {
        EachAddsOnlyUpgrades(l, pending[..n], faults, v);
        var f :| f in pending[..n] && f.hasUpgrade && f.version == v;
        assert f in pending;
      } else {
        assert pending[n] in pending && pending[n].hasUpgrade && pending[n].version == v;
      }
    }
  }

  /** A file without upgrade, like the manager itself, stays pending for ever: "No pending migrations"
      is never reported. */
  lemma NeverNothingPending(l: Ledger, files: seq<File>, faults: nat -> Fault, f: File)
    requires DistinctVersions(files) && f in files && !f.hasUpgrade && f.version !in l.memory
    ensures f in Pending(files, ApplyAll(l, files, faults).ledger.memory)
  {
    var pending := Pending(files, l.memory);
    var after := ApplyAll(l, files, faults).ledger;
    if f.version in after.memory {
      EachAddsOnlyUpgrades(l, pending, faults, f.version);
      var g :| g in pending && g.hasUpgrade && g.version == f.version;
      PendingMembers(files, l.memory, g);
      SameVersionSameFile(files, f, g);
    }
    PendingMembers(files, after.memory, f);
  }

  /** Rolling back a migration just applied restores the ledger, in memory and in the table. */
  lemma RollbackUndoesApply(l: Ledger, f: File)
    requires f.hasUpgrade && f.hasDowngrade && f.version !in l.table && f.version !in l.memory
    ensures var r := Apply(l, f, Healthy);
            && r.ok && f.version in r.ledger.table
            && Rollback(r.ledger, f, Healthy) == Result(l.(ran := l.ran + [f.version]), true)
  {
    assert l.table + {f.version} - {f.version} == l.table;
    assert l.memory + {f.version} - {f.version} == l.memory;
  }
}
