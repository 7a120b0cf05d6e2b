// The optimistic lock over whole logs: what an accepted timestamp proves about the writes before it.
module Locking {
  import opened Basics
  import opened Commands
  import opened PlainStore
  import opened Deciding
  import opened Batches
  import opened Runs

  // The entry at position k was accepted.
  predicate Took(codes: Codes, k: int) {
    0 <= k < |codes| && codes[k] == Some(200)
  }

  // The command writes the document, or creates or deletes its partition.
  predicate Touches(cmd: Command, part: string, id: string) {
    cmd.part == part && (IsPartKind(cmd.kind) || (IsDocKind(cmd.kind) && cmd.id == id))
  }

  // The command ends the lifetime of the document.
  predicate Ends(cmd: Command, part: string, id: string) {
    cmd.part == part && (cmd.kind.DELETE_PART? || (cmd.kind.DEL? && cmd.id == id))
  }

  // A PUT or DEL of the document: a command that carries a timestamp to be checked.
  predicate Checks(cmd: Command, part: string, id: string) {
    (cmd.kind.PUT? || cmd.kind.DEL?) && cmd.part == part && cmd.id == id
  }

  // A POST or PUT of the document: a command that gives it a version.
  predicate Writes(cmd: Command, part: string, id: string) {
    (cmd.kind.POST? || cmd.kind.PUT?) && cmd.part == part && cmd.id == id
  }

  function At(st: Store, log: seq<Command>, n: nat): (r: Store)
    requires n <= |log|
  {
    ExecuteAll(st, log[..n])
  }

  lemma OtherDocumentsKeep(st: Store, cmd: Command, part: string, id: string)
    requires Code(st, cmd) != Some(200) || !Touches(cmd, part, id)
    ensures Holds(Execute(st, cmd), part, id) <==> Holds(st, part, id)
    ensures Holds(st, part, id) ==> Execute(st, cmd)[part][id] == st[part][id]
  {
  }

  // A document nothing touches stays as it is.
  lemma {:induction false} UntouchedKeeps(st: Store, log: seq<Command>, a: nat, b: nat, part: string, id: string)
    requires a <= b <= |log|
    requires forall n :: a <= n < b && Took(CodesOf(st, log), n) ==> !Touches(log[n], part, id)
    ensures Holds(At(st, log, b), part, id) <==> Holds(At(st, log, a), part, id)
    ensures Holds(At(st, log, a), part, id) ==> At(st, log, b)[part][id] == At(st, log, a)[part][id]
  {
    if a < b {
      UntouchedKeeps(st, log, a, b - 1, part, id);
      CodeAt(st, log, b - 1);
      OtherDocumentsKeep(At(st, log, b - 1), log[b - 1], part, id);
    }
  }

  lemma CheckedVersion(st: Store, cmd: Command, part: string, id: string)
    requires Checks(cmd, part, id) && Code(st, cmd) == Some(200)
    ensures Holds(st, part, id) && st[part][id].doc.updated == cmd.ts
  {
  }

  // An accepted PUT or DEL carries the Updated value of the accepted write of the document right
  // before it.
  lemma LockChain(st: Store, log: seq<Command>, j: nat, k: nat)
    requires j < k < |log|
    requires var codes := CodesOf(st, log); var cmd := log[k];
      && Took(codes, j) && Took(codes, k)
      && Checks(cmd, cmd.part, cmd.id)
      && Touches(log[j], cmd.part, cmd.id)
      && forall n :: j < n < k && Took(codes, n) ==> !Touches(log[n], cmd.part, cmd.id)
    ensures Writes(log[j], log[k].part, log[k].id) && log[j].doc.updated == log[k].ts
  {
    var part, id := log[k].part, log[k].id;
    CodeAt(st, log, j);
    CodeAt(st, log, k);
    CheckedVersion(At(st, log, k), log[k], part, id);
    UntouchedKeeps(st, log, j + 1, k, part, id);
  }

  // With no accepted write before it, it carries the Updated value the log started from.
  lemma LockFirst(st: Store, log: seq<Command>, k: nat)
    requires k < |log| && Took(CodesOf(st, log), k) && Checks(log[k], log[k].part, log[k].id)
    requires forall n :: 0 <= n < k && Took(CodesOf(st, log), n) ==> !Touches(log[n], log[k].part, log[k].id)
    ensures Holds(st, log[k].part, log[k].id) && st[log[k].part][log[k].id].doc.updated == log[k].ts
  {
    CodeAt(st, log, k);
    CheckedVersion(At(st, log, k), log[k], log[k].part, log[k].id);
    UntouchedKeeps(st, log, 0, k, log[k].part, log[k].id);
    assert log[..0] == [];
  }

  // Every accepted PUT moves its document forward.
  predicate PutsAdvance(log: seq<Command>, codes: Codes) {
    forall n :: 0 <= n < |log| && Took(codes, n) && log[n].kind.PUT? ==> log[n].ts < log[n].doc.updated
  }

  // Nothing from j on and before k ends the document's lifetime.
  predicate SameLifetime(log: seq<Command>, codes: Codes, j: nat, k: nat, part: string, id: string) {
    forall n :: j <= n < k && n < |log| && Took(codes, n) ==> !Ends(log[n], part, id)
  }

  lemma VersionStep(st: Store, cmd: Command, part: string, id: string, floor: int)
    requires Holds(st, part, id) && floor <= st[part][id].doc.updated
    requires Code(st, cmd) == Some(200) ==> !Ends(cmd, part, id)
    requires Code(st, cmd) == Some(200) && cmd.kind.PUT? ==> cmd.ts < cmd.doc.updated
    ensures Holds(Execute(st, cmd), part, id) && floor <= Execute(st, cmd)[part][id].doc.updated
  {
    if Code(st, cmd) == Some(200) && Touches(cmd, part, id) {
      assert cmd.kind.PUT?;
    } else {
      OtherDocumentsKeep(st, cmd, part, id);
    }
  }

  // Through its lifetime a document stays at or above any version an accepted write gave it.
  lemma {:induction false} LifetimeVersion(st: Store, log: seq<Command>, j: nat, n: nat, part: string, id: string)
    requires j < n <= |log| && Took(CodesOf(st, log), j) && Writes(log[j], part, id)
    requires PutsAdvance(log, CodesOf(st, log)) && SameLifetime(log, CodesOf(st, log), j, n, part, id)
    ensures Holds(At(st, log, n), part, id) && log[j].doc.updated <= At(st, log, n)[part][id].doc.updated
  {
    CodeAt(st, log, n - 1);
    if n > j + 1 {
      LifetimeVersion(st, log, j, n - 1, part, id);
      VersionStep(At(st, log, n - 1), log[n - 1], part, id, log[j].doc.updated);
    }
  }

  // Versions strictly increase within a lifetime and no timestamp is accepted twice in it.
  lemma VersionsIncrease(st: Store, log: seq<Command>, j: nat, k: nat, part: string, id: string)
    requires j < k < |log| && Took(CodesOf(st, log), j) && Took(CodesOf(st, log), k)
    requires Writes(log[j], part, id) && Checks(log[k], part, id)
    requires PutsAdvance(log, CodesOf(st, log)) && SameLifetime(log, CodesOf(st, log), j, k, part, id)
    ensures log[j].doc.updated <= log[k].ts
    ensures log[j].kind.PUT? ==> log[j].ts < log[k].ts
    ensures log[k].kind.PUT? ==> log[j].doc.updated < log[k].doc.updated
  {
    CodeAt(st, log, k);
    CheckedVersion(At(st, log, k), log[k], part, id);
    LifetimeVersion(st, log, j, k, part, id);
  }

  // The same of the codes the state machine gives over a run.
  lemma RunLocks(dec: Decoder, m: Machine, events: seq<Event>, j: nat, k: nat)
    requires Inv(dec, m) && Admissible(dec, m, events) && PlainRun(dec, m, events)
    requires Run(dec, m, events).Some?
    requires var codes := Run(dec, m, events).value.1; var log := CmdsOf(LogOf(events));
      && j < k < |log| && Took(codes, j) && Took(codes, k)
      && Checks(log[k], log[k].part, log[k].id)
    ensures var codes := Run(dec, m, events).value.1; var log := CmdsOf(LogOf(events));
            var part := log[k].part; var id := log[k].id;
      && (Touches(log[j], part, id) && (forall n :: j < n < k && Took(codes, n) ==> !Touches(log[n], part, id)) ==>
            Writes(log[j], part, id) && log[j].doc.updated == log[k].ts)
      && (Writes(log[j], part, id) && PutsAdvance(log, codes) && SameLifetime(log, codes, j, k, part, id) ==>
            && log[j].doc.updated <= log[k].ts
            && (log[j].kind.PUT? ==> log[j].ts < log[k].ts)
            && (log[k].kind.PUT? ==> log[j].doc.updated < log[k].doc.updated))
  {
    RunRefinement(dec, m, events);
    var st, log := ViewOf(dec, m), CmdsOf(LogOf(events));
    var codes := Run(dec, m, events).value.1;
    var part, id := log[k].part, log[k].id;
    if Touches(log[j], part, id) && forall n :: j < n < k && Took(codes, n) ==> !Touches(log[n], part, id) {
      LockChain(st, log, j, k);
    }
    if Writes(log[j], part, id) && PutsAdvance(log, codes) && SameLifetime(log, codes, j, k, part, id) {
      VersionsIncrease(st, log, j, k, part, id);
    }
  }
}
