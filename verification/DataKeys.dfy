/** The stored data-encryption keys: booting processes that race to create one, and rewraps of the master
    key that race with them and with each other. Sealing is symbolic: a box opens under the key that
    sealed it and under no other. */
module DataKeys {
  import opened Wrappers

  type Id = nat
  type Key = nat

  datatype Box = Box(key: Key, content: nat)

  function Seal(key: Key, content: nat): Box {
    Box(key, content)
  }

  function Open(key: Key, box: Box): Option<nat> {
    if key == box.key then Some(box.content) else None
  }

  type Rows = map<string, Box>

  // ---------- The operations, with what others may do between their statements ----------

  datatype Error = NoMaster | WrongMaster | NoKey

  class Store {
    var rows: Rows

    constructor ()
      ensures rows == map[]
    {
      rows := map[];
    }

    /** `raw` is the key it would mint; `rival` is the row another process inserts between this one's
        read and its insert, if any. */
    method LoadOrCreateDataKey(master: Option<Key>, purpose: string, raw: Key, rival: Option<Box>)
      returns (r: Result<Key, Error>)
      modifies this
      ensures master.None? ==> r == Err(NoMaster) && rows == old(rows)
      ensures master.Some? && purpose in old(rows) ==> rows == old(rows)
      ensures master.Some? && purpose !in old(rows) ==>
                rows == old(rows)[purpose := if rival.Some? then rival.value else Seal(master.value, raw)]
      ensures master.Some? ==> purpose in rows
      ensures master.Some? ==> r == match Open(master.value, rows[purpose]) case Some(k) => Ok(k) case None => Err(WrongMaster)
    {
      if master.None? {
        return Err(NoMaster);
      }
      if purpose in rows {
        var key := Open(master.value, rows[purpose]);
        return if key.Some? then Ok(key.value) else Err(WrongMaster);
      }
      var wrapped := Seal(master.value, raw);
      if rival.Some? {
        rows := rows[purpose := rival.value];
      }
      if purpose in rows {
        var key := Open(master.value, rows[purpose]);
        return if key.Some? then Ok(key.value) else Err(WrongMaster);
      }
      rows := rows[purpose := wrapped];
      r := Ok(raw);
    }

    /** `rival` is what another rewrap stores between this one's read and its update, if any. */
    method RewrapDataKey(oldMaster: Option<Key>, newMaster: Option<Key>, purpose: string, rival: Option<Box>)
      returns (r: Result<(), Error>)
      modifies this
      ensures r.Ok? <==> oldMaster.Some? && newMaster.Some? && purpose in old(rows)
                         && Open(oldMaster.value, old(rows)[purpose]).Some?
      ensures r.Err? ==> rows == old(rows)
      ensures r.Ok? ==> rows == old(rows)[purpose := Seal(newMaster.value, old(rows)[purpose].content)]
    {
      if oldMaster.None? || newMaster.None? {
        return Err(NoMaster);
      }
      if purpose !in rows {
        return Err(NoKey);
      }
      var raw := Open(oldMaster.value, rows[purpose]);
      if raw.None? {
        return Err(WrongMaster);
      }
      var wrapped := Seal(newMaster.value, raw.value);
      if rival.Some? {
        rows := rows[purpose := rival.value];
      }
      rows := rows[purpose := wrapped];
      r := Ok(());
    }
  }

  // ---------- Any number of processes ----------

  datatype Proc =
    | Reading(purpose: string, master: Key)
    | Minted(purpose: string, master: Key, raw: Key)
    | Beaten(purpose: string, master: Key)
    | Ready(purpose: string, dek: Key)
    | RewrapReading(purpose: string, from: Key, to: Key)
    | RewrapWriting(purpose: string, raw: Key, to: Key)
    | Stopped

  /** `created` is history: the key each purpose was first given. */
  datatype State = State(rows: Rows, procs: map<Id, Proc>, created: map<string, Key>)

  const INIT := State(map[], map[], map[])

  datatype Step =
    | Boot(id: Id, purpose: string, master: Key)
    | StartRewrap(id: Id, purpose: string, from: Key, to: Key)
    | Read(id: Id, raw: Key)
    | Insert(id: Id, answered: bool)
    | ReRead(id: Id)
    | ReadForRewrap(id: Id)
    | Update(id: Id, answered: bool)
    | Crash(id: Id)

  predicate Enabled(s: State, step: Step) {
    match step
    case Boot(id, _, _) => id !in s.procs
    case StartRewrap(id, _, _, _) => id !in s.procs
    case Read(id, _) => id in s.procs && s.procs[id].Reading?
    case Insert(id, _) => id in s.procs && s.procs[id].Minted?
    case ReRead(id) => id in s.procs && s.procs[id].Beaten?
    case ReadForRewrap(id) => id in s.procs && s.procs[id].RewrapReading?
    case Update(id, _) => id in s.procs && s.procs[id].RewrapWriting?
    case Crash(id) => id in s.procs
  }

  /** A process that opened the row has its key; one that could not, or found none, stops. */
  function Opened(rows: Rows, purpose: string, master: Key): Proc {
    if purpose in rows && Open(master, rows[purpose]).Some? then Ready(purpose, Open(master, rows[purpose]).value)
    else Stopped
  }

  /** The process after its step. An insert or update whose answer is lost has still happened. */
  function ProcAfter(s: State, step: Step): Proc
    requires Enabled(s, step)
  {
    match step
    case Boot(_, purpose, master) => Reading(purpose, master)
    case StartRewrap(_, purpose, from, to) => RewrapReading(purpose, from, to)
    case Read(id, raw) =>
      var p := s.procs[id];
      if p.purpose in s.rows then Opened(s.rows, p.purpose, p.master) else Minted(p.purpose, p.master, raw)
    case Insert(id, answered) =>
      var p := s.procs[id];
      if !answered then Stopped else if p.purpose in s.rows then Beaten(p.purpose, p.master) else Ready(p.purpose, p.raw)
    case ReRead(id) => Opened(s.rows, s.procs[id].purpose, s.procs[id].master)
    case ReadForRewrap(id) =>
      var p := s.procs[id];
      if p.purpose in s.rows && Open(p.from, s.rows[p.purpose]).Some?
      then RewrapWriting(p.purpose, Open(p.from, s.rows[p.purpose]).value, p.to) else Stopped
    case Update(_, _) => Stopped
    case Crash(_) => Stopped
  }

  function RowsAfter(s: State, step: Step): Rows
    requires Enabled(s, step)
  {
    match step
    case Insert(id, _) =>
      var p := s.procs[id];
      if p.purpose in s.rows then s.rows else s.rows[p.purpose := Seal(p.master, p.raw)]
    case Update(id, _) =>
      var p := s.procs[id];
      if p.purpose in s.rows then s.rows[p.purpose := Seal(p.to, p.raw)] else s.rows
    case _ => s.rows
  }

  function After(s: State, step: Step): State
    requires Enabled(s, step)
  {
    var rows := RowsAfter(s, step);
    State(rows, s.procs[step.id := ProcAfter(s, step)],
          if step.Insert? && s.procs[step.id].purpose !in s.rows
          then s.created[s.procs[step.id].purpose := s.procs[step.id].raw] else s.created)
  }

  function Run(steps: seq<Step>): Option<State> {
    if steps == [] then Some(INIT)
    else
      var before, step := Run(steps[..|steps| - 1]), steps[|steps| - 1];
      if before.Some? && Enabled(before.value, step) then Some(After(before.value, step)) else None
  }

  /** Whoever holds a purpose's key, in memory or in the stored wrapping, holds the one first created. */
  ghost predicate Agrees(s: State, p: Proc) {
    match p
    case Ready(purpose, dek) => purpose in s.created && dek == s.created[purpose]
    case RewrapWriting(purpose, raw, _) => purpose in s.created && raw == s.created[purpose]
    case _ => true
  }

  ghost predicate Inv(s: State) {
    && s.rows.Keys == s.created.Keys
    && (forall purpose <- s.rows :: s.rows[purpose].content == s.created[purpose])
    && forall id <- s.procs :: Agrees(s, s.procs[id])
  }

  lemma StepKeeps(s: State, step: Step)
    requires Inv(s) && Enabled(s, step)
    ensures Inv(After(s, step))
    ensures forall purpose <- s.created :: purpose in After(s, step).created && After(s, step).created[purpose] == s.created[purpose]
  {
    var s' := After(s, step);
    assert step.id in s.procs ==> Agrees(s, s.procs[step.id]);
    forall id <- s'.procs ensures Agrees(s', s'.procs[id]) {
      if id != step.id {
        assert Agrees(s, s.procs[id]);
      }
    }
  }

  /** The whole effect of a step on the stored rows: the first insert for a purpose stores the key its process
      minted under that process's master, and a rewrap stores the same key under the new master. */
  ghost predicate Does(s: State, step: Step, rows: Rows) {
    match step
    case Insert(id, _) =>
      && id in s.procs && s.procs[id].Minted?
      && var p := s.procs[id];
         rows == if p.purpose in s.rows then s.rows else s.rows[p.purpose := Box(p.master, p.raw)]
    case Update(id, _) =>
      && id in s.procs && s.procs[id].RewrapWriting?
      && var p := s.procs[id];
         rows == if p.purpose in s.rows then s.rows[p.purpose := Box(p.to, s.rows[p.purpose].content)] else s.rows
    case _ => rows == s.rows
  }

  lemma StepsDoAsPromised(steps: seq<Step>, step: Step)
    requires Run(steps).Some? && Enabled(Run(steps).value, step)
    ensures Does(Run(steps).value, step, After(Run(steps).value, step).rows)
  {
    RunInvariant(steps);
    var s := Run(steps).value;
    if step.Update? {
      assert Agrees(s, s.procs[step.id]);
    }
  }

  lemma {:induction false} RunInvariant(steps: seq<Step>)
    ensures Run(steps).Some? ==> Inv(Run(steps).value)
  {
    if steps != [] {
      RunInvariant(steps[..|steps| - 1]);
      if Run(steps).Some? {
        StepKeeps(Run(steps[..|steps| - 1]).value, steps[|steps| - 1]);
      }
    }
  }

  /** In every interleaving, all processes that get a key for a purpose get the same one, and it is what
      the stored wrapping opens to under the master key it is wrapped with now, and under no other. */
  lemma EveryProcessGetsTheStoredKey(steps: seq<Step>, a: Id, b: Id)
    requires Run(steps).Some?
    requires a in Run(steps).value.procs && Run(steps).value.procs[a].Ready?
    ensures var s := Run(steps).value;
            && s.procs[a].purpose in s.rows
            && (forall master :: Open(master, s.rows[s.procs[a].purpose])
                  == if master == s.rows[s.procs[a].purpose].key then Some(s.procs[a].dek) else None)
            && (b in s.procs && s.procs[b].Ready? && s.procs[b].purpose == s.procs[a].purpose ==> s.procs[b].dek == s.procs[a].dek)
  {
    RunInvariant(steps);
    var s := Run(steps).value;
    assert Agrees(s, s.procs[a]);
    assert b in s.procs ==> Agrees(s, s.procs[b]);
  }

  lemma {:induction false} KeyIsForLife(steps: seq<Step>, more: seq<Step>, purpose: string)
    requires Run(steps + more).Some?
    ensures Run(steps).Some?
    ensures purpose in Run(steps).value.created ==>
              && purpose in Run(steps + more).value.created
              && Run(steps + more).value.created[purpose] == Run(steps).value.created[purpose]
  {
    if more == [] {
      assert steps + more == steps;
    } else {
      var rest, step := more[..|more| - 1], more[|more| - 1];
      assert (steps + more)[..|steps + more| - 1] == steps + rest;
      KeyIsForLife(steps, rest, purpose);
      RunInvariant(steps + rest);
      StepKeeps(Run(steps + rest).value, step);
    }
  }

  /** Run with nothing in between, the steps of a boot store and answer what `LoadOrCreateDataKey` does. */
  lemma BootAlone(s: State, id: Id, purpose: string, master: Key, raw: Key)
    requires id !in s.procs
    ensures Enabled(s, Boot(id, purpose, master)) && Enabled(After(s, Boot(id, purpose, master)), Read(id, raw))
    ensures var s2 := After(After(s, Boot(id, purpose, master)), Read(id, raw));
            if purpose in s.rows then
              && s2.rows == s.rows
              && s2.procs[id] == match Open(master, s.rows[purpose]) case Some(k) => Ready(purpose, k) case None => Stopped
            else
              && Enabled(s2, Insert(id, true))
              && var s3 := After(s2, Insert(id, true));
                 s3.rows == s.rows[purpose := Seal(master, raw)] && s3.procs[id] == Ready(purpose, raw)
  {
  }

  /** And those of a rewrap what `RewrapDataKey` does. */
  lemma RewrapAlone(s: State, id: Id, purpose: string, from: Key, to: Key)
    requires id !in s.procs
    ensures Enabled(s, StartRewrap(id, purpose, from, to))
    ensures Enabled(After(s, StartRewrap(id, purpose, from, to)), ReadForRewrap(id))
    ensures var s2 := After(After(s, StartRewrap(id, purpose, from, to)), ReadForRewrap(id));
            if purpose in s.rows && Open(from, s.rows[purpose]).Some? then
              && Enabled(s2, Update(id, true))
              && After(s2, Update(id, true)).rows == s.rows[purpose := Seal(to, s.rows[purpose].content)]
            else s2.rows == s.rows && s2.procs[id] == Stopped
  {
  }

  /** What a process sealed opens for every process that gets the purpose's key at any later time, however
      many rewraps and crashes lie between. */
  lemma SealedDataStillOpens(steps: seq<Step>, more: seq<Step>, a: Id, b: Id, secret: nat)
    requires Run(steps + more).Some?
    requires Run(steps).Some? ==> a in Run(steps).value.procs && Run(steps).value.procs[a].Ready?
    requires b in Run(steps + more).value.procs && Run(steps + more).value.procs[b].Ready?
    requires Run(steps).Some? ==> Run(steps + more).value.procs[b].purpose == Run(steps).value.procs[a].purpose
    ensures Run(steps).Some?
    ensures Open(Run(steps + more).value.procs[b].dek, Seal(Run(steps).value.procs[a].dek, secret)) == Some(secret)
  {
    var purpose := Run(steps + more).value.procs[b].purpose;
    KeyIsForLife(steps, more, purpose);
    RunInvariant(steps);
    RunInvariant(steps + more);
    assert Agrees(Run(steps).value, Run(steps).value.procs[a]);
    assert Agrees(Run(steps + more).value, Run(steps + more).value.procs[b]);
  }

  /** A boot fails closed: with a row stored, its read gives the key exactly when its master is the one
      the row is wrapped with, and otherwise nothing, whatever rewraps have happened. */
  lemma BootOpensIffMasterIsCurrent(steps: seq<Step>, id: Id, raw: Key)
    requires Run(steps).Some? && id in Run(steps).value.procs && Run(steps).value.procs[id].Reading?
    requires Run(steps).value.procs[id].purpose in Run(steps).value.rows
    ensures Run(steps).value.procs[id].purpose in Run(steps).value.created
    ensures var s := Run(steps).value;
            var p, row := s.procs[id], s.rows[s.procs[id].purpose];
            After(s, Read(id, raw)).procs[id]
            == if p.master == row.key then Ready(p.purpose, s.created[p.purpose]) else Stopped
  {
    RunInvariant(steps);
  }
}
