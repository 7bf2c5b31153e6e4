/** What one bidirectional job does to its key, in one piece (sync/engine.go:200-317), and what follows
    over several runs: convergence, self-stabilisation, alternation of directions. */
module Resolver {
  import opened Prelude
  import opened SyncTable
  import opened Jobs

  // ---------------------------------------------------------------- the retry loop around one write

  /** How the attempts from the k-th on end: success, whether any of them reached the vault, and the
      last error. */
  datatype Attempts = Attempts(ok: bool, stored: bool, lastErr: Option<string>)

  function Attempt<V>(run: Run<V>, job: Job, k: nat, lastErr: Option<string>): Attempts
    decreases Left(run, k)
  {
    if k > run.Retries() then Attempts(false, false, lastErr)
    else match run.setOutcome(job, k)
      case Stored => Attempts(true, true, lastErr)
      case Refused(stored, reason) =>
        var rest := Attempt(run, job, k + 1, Some(reason));
        rest.(stored := stored || rest.stored)
  }

  function Recorded<V>(run: Run<V>, job: Job, c: Cell<V>, obj: SyncObject): Cell<V> {
    if run.recordOk(job) then c.(row := Some(obj)) else c
  }

  function Wrote<V>(run: Run<V>, job: Job, c: Cell<V>, side: Side, v: V, stored: bool): Cell<V> {
    if stored then OnCell(run, job, c, Put(side, v)) else c
  }

  lemma RecordFinishes<V>(run: Run<V>, job: Job, c: Cell<V>, obj: SyncObject, ok: bool)
    ensures Finish(run, job, Update(obj, ok), c) == (ok, Recorded(run, job, c, obj))
  {
    assert Finish(run, job, Finished(ok), Recorded(run, job, c, obj)) == (ok, Recorded(run, job, c, obj));
    if run.recordOk(job) && c.row.None? {
      assert Finish(run, job, Insert(obj, ok), c) == (ok, c.(row := Some(obj)));
    }
  }

  function BiObject<V>(run: Run<V>, dir: Direction, sv: V, tv: V, a: Attempts): SyncObject {
    if a.ok then
      var sum := run.hash(if dir == SourceToTarget then sv else tv);
      SyncObject(sum, sum, Success, "", dir)
    else SyncObject(run.hash(sv), run.hash(tv), Failed, FailText(a.lastErr), dir)
  }

  function BiSide(dir: Direction): Side { if dir == SourceToTarget then TargetSide else SourceSide }

  function BiValue<V>(dir: Direction, sv: V, tv: V): V { if dir == SourceToTarget then sv else tv }

  lemma {:induction false} BiWriteFinishes<V>(run: Run<V>, job: Job, dir: Direction, sv: V, tv: V, k: nat,
                                              lastErr: Option<string>, c: Cell<V>)
    ensures var a := Attempt(run, job, k, lastErr);
            var c' := Wrote(run, job, c, BiSide(dir), BiValue(dir, sv, tv), a.stored);
            Finish(run, job, BiWrite(dir, sv, tv, k, lastErr), c) ==
            (a.ok, Recorded(run, job, c', BiObject(run, dir, sv, tv, a)))
    decreases Left(run, k)
  {
    var a := Attempt(run, job, k, lastErr);
    var v := BiValue(dir, sv, tv);
    if k > run.Retries() {
      RecordFinishes(run, job, c, BiObject(run, dir, sv, tv, a), false);
    } else {
      match run.setOutcome(job, k)
      case Stored =>
        RecordFinishes(run, job, Wrote(run, job, c, BiSide(dir), v, true), BiObject(run, dir, sv, tv, a), true);
      case Refused(stored, reason) =>
        BiWriteFinishes(run, job, dir, sv, tv, k + 1, Some(reason), Wrote(run, job, c, BiSide(dir), v, stored));
    }
  }

  function UniObject<V>(run: Run<V>, sv: V, a: Attempts): SyncObject {
    if a.ok then SyncObject(run.hash(sv), run.hash(sv), Success, "", SourceToTarget)
    else SyncObject(run.hash(sv), "", Failed, FailText(a.lastErr), SourceToTarget)
  }

  lemma {:induction false} UniWriteFinishes<V>(run: Run<V>, job: Job, sv: V, value: V, k: nat,
                                               lastErr: Option<string>, c: Cell<V>)
    ensures var a := Attempt(run, job, k, lastErr);
            Finish(run, job, UniWrite(sv, value, k, lastErr), c) ==
            (a.ok, Recorded(run, job, Wrote(run, job, c, TargetSide, value, a.stored), UniObject(run, sv, a)))
    decreases Left(run, k)
  {
    var a := Attempt(run, job, k, lastErr);
    if k > run.Retries() {
      RecordFinishes(run, job, c, UniObject(run, sv, a), false);
    } else {
      match run.setOutcome(job, k)
      case Stored => RecordFinishes(run, job, Wrote(run, job, c, TargetSide, value, true), UniObject(run, sv, a), true);
      case Refused(stored, reason) =>
        UniWriteFinishes(run, job, sv, value, k + 1, Some(reason), Wrote(run, job, c, TargetSide, value, stored));
    }
  }

  // ---------------------------------------------------------------- the two operations in one piece

  /** `syncSecretUnidirectional`, reading the source with its `call`-th read. */
  function Unidirect<V>(run: Run<V>, job: Job, call: nat, c: Cell<V>): (bool, Cell<V>) {
    if !run.readOk(job, call) || c.src.None? then (false, c)
    else
      var sv := c.src.value;
      match run.transform(sv)
      case Err(_) => (false, c)
      case Ok(value) =>
        var a := Attempt(run, job, 0, None);
        (a.ok, Recorded(run, job, Wrote(run, job, c, TargetSide, value, a.stored), UniObject(run, sv, a)))
  }

  /** `syncSecretBidirectional`. */
  function Bidirect<V>(run: Run<V>, job: Job, c: Cell<V>): (bool, Cell<V>) {
    if !run.readOk(job, 0) || c.src.None? then (false, c)
    else if !run.readOk(job, 1) || c.tgt.None? then Unidirect(run, job, 2, c)
    else
      var sv, tv := c.src.value, c.tgt.value;
      if run.hash(sv) == run.hash(tv) then
        (true, Recorded(run, job, c, SyncObject(run.hash(sv), run.hash(tv), InSync, "", NoDirection)))
      else if !run.selectOk(job) then (false, c)
      else
        var dir := Resolve(c.row);
        var a := Attempt(run, job, 0, None);
        (a.ok, Recorded(run, job, Wrote(run, job, c, BiSide(dir), BiValue(dir, sv, tv), a.stored),
                        BiObject(run, dir, sv, tv, a)))
  }

  lemma UniFinishes<V>(run: Run<V>, job: Job, call: nat, c: Cell<V>)
    ensures Finish(run, job, UniReadSource(call), c) == Unidirect(run, job, call, c)
  {
    if run.readOk(job, call) && c.src.Some? {
      var t := run.transform(c.src.value);
      if t.Ok? {
        UniWriteFinishes(run, job, c.src.value, t.value, 0, None, c);
      }
    }
  }

  /** The steps of a job add up to the operation. */
  lemma StepsAddUp<V>(run: Run<V>, job: Job, c: Cell<V>)
    ensures run.kind == Unidirectional ==> Outcomes(run, true, job, c) == Unidirect(run, job, 0, c)
    ensures run.kind == Bidirectional ==> Outcomes(run, true, job, c) == Bidirect(run, job, c)
  {
    UniFinishes(run, job, 0, c);
    if run.kind == Bidirectional && run.readOk(job, 0) && c.src.Some? {
      var sv := c.src.value;
      if !run.readOk(job, 1) || c.tgt.None? {
        UniFinishes(run, job, 2, c);
        assert Finish(run, job, BiReadTarget(sv), c) == Finish(run, job, UniReadSource(2), c);
      } else {
        BiReadsFinish(run, job, sv, c.tgt.value, c);
      }
    }
  }

  lemma BiReadsFinish<V>(run: Run<V>, job: Job, sv: V, tv: V, c: Cell<V>)
    requires run.readOk(job, 0) && c.src == Some(sv) && run.readOk(job, 1) && c.tgt == Some(tv)
    ensures Finish(run, job, BiReadTarget(sv), c) == Bidirect(run, job, c)
  {
    if run.hash(sv) == run.hash(tv) {
      RecordFinishes(run, job, c, SyncObject(run.hash(sv), run.hash(tv), InSync, "", NoDirection), true);
    } else {
      BiWriteFinishes(run, job, Resolve(c.row), sv, tv, 0, None, c);
      assert Finish(run, job, BiReadTarget(sv), c) == Finish(run, job, BiSelect(sv, tv), c);
      assert Finish(run, job, BiSelect(sv, tv), c) ==
             if run.selectOk(job) then Finish(run, job, BiWrite(Resolve(c.row), sv, tv, 0, None), c)
             else Finish(run, job, Finished(false), c);
    }
  }

  // ---------------------------------------------------------------- what the operations amount to

  /** The attempts succeed exactly when one of those that are left is answered by a success; else the last
      one names the error. */
  lemma {:induction false} AttemptSays<V>(run: Run<V>, job: Job, k: nat, lastErr: Option<string>)
    ensures var a := Attempt(run, job, k, lastErr);
            && (a.ok <==> exists i: nat :: k <= i <= run.Retries() && run.setOutcome(job, i) == Stored)
            && (a.ok ==> a.stored)
            && (!a.ok && k <= run.Retries() ==>
                  run.setOutcome(job, run.Retries()).Refused?
                  && a.lastErr == Some(run.setOutcome(job, run.Retries()).reason))
            && (k > run.Retries() ==> a.lastErr == lastErr)
    decreases Left(run, k)
  {
    if k <= run.Retries() && run.setOutcome(job, k).Refused? {
      AttemptSays(run, job, k + 1, Some(run.setOutcome(job, k).reason));
    }
  }

  /** A copy succeeds exactly when the source is read, the transforms do not err, and one of the attempts,
      MaxRetries + 1 at most, succeeds.  The target then holds the transformed value and the record says so;
      the source is never written.  A copy that fails before its first attempt changes nothing; one that runs
      out of attempts records the last error. */
  lemma UnidirectSays<V>(run: Run<V>, job: Job, call: nat, c: Cell<V>)
    ensures var (ok, c') := Unidirect(run, job, call, c);
            var ready := run.readOk(job, call) && c.src.Some? && run.transform(c.src.value).Ok?;
            && (ok <==> ready && exists i: nat :: i <= run.Retries() && run.setOutcome(job, i) == Stored)
            && c'.src == c.src
            && (!ready ==> c' == c)
            && (ok ==> c'.tgt == Some(run.canon(job.target, run.transform(c.src.value).value)))
            && (ready && run.recordOk(job) ==>
                  var sum := run.hash(c.src.value);
                  c'.row == Some(if ok then SyncObject(sum, sum, Success, "", SourceToTarget)
                                 else SyncObject(sum, "", Failed, c'.row.value.error, SourceToTarget)))
            && (ready && !ok && run.recordOk(job) && run.Retries() >= 0 ==>
                  run.setOutcome(job, run.Retries()).Refused?
                  && c'.row.value.error == "max retries exceeded: " + run.setOutcome(job, run.Retries()).reason)
            && (ready && !run.recordOk(job) ==> c'.row == c.row)
  {
    AttemptSays(run, job, 0, None);
  }

  /** Equal sides are recorded as in sync and not written.  Otherwise the direction is source to target when
      nothing is recorded or the last direction was target to source, and target to source else; the value
      is copied that way, the other side is left alone, and the record says so. */
  lemma BidirectSays<V>(run: Run<V>, job: Job, c: Cell<V>)
    requires run.readOk(job, 0) && run.readOk(job, 1) && c.src.Some? && c.tgt.Some?
    ensures var (ok, c') := Bidirect(run, job, c);
            var hs, ht := run.hash(c.src.value), run.hash(c.tgt.value);
            && (hs == ht ==> ok && c'.src == c.src && c'.tgt == c.tgt)
            && (hs == ht && run.recordOk(job) ==> c'.row == Some(SyncObject(hs, ht, InSync, "", NoDirection)))
            && (hs != ht ==>
                  (ok <==> run.selectOk(job)
                           && exists i: nat :: i <= run.Retries() && run.setOutcome(job, i) == Stored))
            && (hs != ht && run.selectOk(job) ==>
                  var there := c.row.None? || c.row.value.direction == TargetToSource;
                  && (there ==> c'.src == c.src && (ok ==> c'.tgt == Some(run.canon(job.target, c.src.value))))
                  && (!there ==> c'.tgt == c.tgt && (ok ==> c'.src == Some(run.canon(run.source, c.tgt.value))))
                  && (run.recordOk(job) ==>
                        c'.row == Some(
                          if ok && there then SyncObject(hs, hs, Success, "", SourceToTarget)
                          else if ok then SyncObject(ht, ht, Success, "", TargetToSource)
                          else SyncObject(hs, ht, Failed, c'.row.value.error,
                                          if there then SourceToTarget else TargetToSource))))
  {
    AttemptSays(run, job, 0, None);
  }

  // ---------------------------------------------------------------- unidirectional jobs listed again

  predicate OneWay<V>(pc: Pc<V>) { pc.UniReadSource? || pc.UniWrite? || pc.Update? || pc.Insert? || pc.Finished? }

  /** The target and the row are each as in `c` or as in `f`. */
  predicate Between<V(==)>(c: Cell<V>, f: Cell<V>, c': Cell<V>) {
    && c'.src == c.src
    && (c'.tgt == c.tgt || c'.tgt == f.tgt)
    && (c'.row == c.row || c'.row == f.row)
  }

  /** A one-way job ends the same when another goroutine of it has taken the cell part of the way. */
  lemma FinishMoves<V>(run: Run<V>, job: Job, pc: Pc<V>, c: Cell<V>, c': Cell<V>)
    requires OneWay(pc) && Between(c, Finish(run, job, pc, c).1, c')
    ensures Finish(run, job, pc, c') == Finish(run, job, pc, c)
  {
    match pc
    case UniReadSource(call) =>
      UniFinishes(run, job, call, c);
      UniFinishes(run, job, call, c');
    case UniWrite(sv, value, k, lastErr) =>
      UniWriteFinishes(run, job, sv, value, k, lastErr, c);
      UniWriteFinishes(run, job, sv, value, k, lastErr, c');
    case Update(obj, ok) =>
      RecordFinishes(run, job, c, obj, ok);
      RecordFinishes(run, job, c', obj, ok);
    case Insert(obj, ok) =>
      InsertFinishes(run, job, c, obj, ok);
      InsertFinishes(run, job, c', obj, ok);
    case Finished(_) =>
  }

  lemma InsertFinishes<V>(run: Run<V>, job: Job, c: Cell<V>, obj: SyncObject, ok: bool)
    ensures Finish(run, job, Insert(obj, ok), c) == (ok, if c.row.None? then c.(row := Some(obj)) else c)
  {
    var c' := OnCell(run, job, c, ExecInsert(obj));
    assert Finish(run, job, Finished(ok), c') == (ok, c');
  }

  /** Each step of a one-way job takes the cell part of the way to its end. */
  lemma StepMoves<V>(run: Run<V>, job: Job, pc: Pc<V>, c: Cell<V>)
    requires OneWay(pc)
    ensures Between(c, Finish(run, job, pc, c).1, OnCell(run, job, c, Next(run, job, pc, c).1))
  {
    match pc
    case UniReadSource(_) =>
    case UniWrite(sv, value, k, lastErr) => UniWriteFinishes(run, job, sv, value, k, lastErr, c);
    case Update(obj, ok) => RecordFinishes(run, job, c, obj, ok);
    case Insert(obj, ok) => InsertFinishes(run, job, c, obj, ok);
    case Finished(_) =>
  }

  // ---------------------------------------------------------------- convergence

  ghost predicate Injective<V(!new)>(hash: V -> string) {
    forall v, w | hash(v) == hash(w) :: v == w
  }

  ghost predicate NoTransforms<V(!new)>(run: Run<V>) {
    forall v :: run.transform(v) == Ok(v)
  }

  /** Both vaults give back what was written. */
  ghost predicate StoresAsGiven<V(!new)>(run: Run<V>, job: Job) {
    forall v :: run.canon(run.source, v) == v && run.canon(job.target, v) == v
  }

  /** Without transforms, on vaults that give back what was written: a call that reports success leaves
      the two sides equal, at one of the two values that were there; a success that is recorded is
      recorded with the hash of what both sides now hold.  A side is never emptied. */
  lemma SuccessConverges<V(!new)>(run: Run<V>, job: Job, c: Cell<V>)
    requires Injective(run.hash) && NoTransforms(run) && StoresAsGiven(run, job)
    ensures var (ok, c') := Bidirect(run, job, c);
            ok ==>
              && c'.src.Some? && c'.tgt == c'.src && (c'.src == c.src || c'.src == c.tgt)
              && (run.recordOk(job) ==>
                    && c'.row.Some? && c'.row.value.sourceSum == run.hash(c'.src.value)
                    && c'.row.value.targetSum == run.hash(c'.tgt.value) && c'.row.value.status != Failed)
  {
    AttemptStores(run, job, 0, None);
  }

  lemma {:induction false} AttemptStores<V>(run: Run<V>, job: Job, k: nat, lastErr: Option<string>)
    ensures Attempt(run, job, k, lastErr).ok ==> Attempt(run, job, k, lastErr).stored
    decreases Left(run, k)
  {
    if k <= run.Retries() && run.setOutcome(job, k).Refused? {
      AttemptStores(run, job, k + 1, Some(run.setOutcome(job, k).reason));
    }
  }

  // ---------------------------------------------------------------- self-stabilisation

  /** Every call to the vaults and to the database works. */
  ghost predicate FailureFree<V(!new)>(run: Run<V>, job: Job) {
    && (forall k :: run.readOk(job, k))
    && (forall k :: run.setOutcome(job, k) == Stored)
    && run.selectOk(job) && run.recordOk(job)
  }

  /** Writing to the vault and reading back is the identity, or else the canonicaliser `canon`. */
  ghost predicate CanonicalVault<V(!new)>(run: Run<V>, vault: string, canon: V -> V) {
    (forall v :: run.canon(vault, v) == v) || (forall v :: run.canon(vault, v) == canon(v))
  }

  ghost predicate Idempotent<V(!new)>(canon: V -> V) {
    forall v :: canon(canon(v)) == canon(v)
  }

  /** The assumptions on a run that stabilises. */
  ghost predicate Stabilising<V(!new)>(run: Run<V>, job: Job, canon: V -> V) {
    && Injective(run.hash) && NoTransforms(run) && FailureFree(run, job)
    && Idempotent(canon)
    && CanonicalVault(run, run.source, canon) && CanonicalVault(run, job.target, canon)
    && run.Retries() >= 0
  }

  predicate InSyncCell<V(==)>(c: Cell<V>) { c.src.Some? && c.src == c.tgt }

  /** After one run the sides are equal, or one is the canonical form of the other and the record points
      from the raw side to the canonical one. */
  predicate AlmostThere<V(==)>(c: Cell<V>, canon: V -> V) {
    && c.src.Some? && c.tgt.Some? && c.row.Some?
    && (|| c.src == c.tgt
        || (c.tgt.value == canon(c.src.value) && c.row.value.direction == SourceToTarget)
        || (c.src.value == canon(c.tgt.value) && c.row.value.direction == TargetToSource))
  }

  lemma FirstRun<V(!new)>(run: Run<V>, job: Job, c: Cell<V>, canon: V -> V)
    requires Stabilising(run, job, canon) && c.src.Some?
    ensures Bidirect(run, job, c).0
    ensures AlmostThere(Bidirect(run, job, c).1, canon)
  {
    assert Attempt(run, job, 0, None) == Attempts(true, true, None);
  }

  lemma SecondRun<V(!new)>(run: Run<V>, job: Job, c: Cell<V>, canon: V -> V)
    requires Stabilising(run, job, canon) && AlmostThere(c, canon)
    ensures Bidirect(run, job, c).0
    ensures InSyncCell(Bidirect(run, job, c).1)
  {
    assert Attempt(run, job, 0, None) == Attempts(true, true, None);
  }

  /** The vault writes a job makes from here on. */
  function Writes<V>(run: Run<V>, job: Job, pc: Pc<V>, c: Cell<V>): nat
    decreases Rank(run, pc)
  {
    if pc.Finished? then 0
    else
      RankDecreases(run, job, pc, c);
      var (pc', e) := Next(run, job, pc, c);
      (if e.Put? then 1 else 0) + Writes(run, job, pc', OnCell(run, job, c, e))
  }

  /** On equal sides a run writes no vault and keeps them equal, as long as both can be read. */
  lemma EqualSidesRest<V>(run: Run<V>, job: Job, c: Cell<V>)
    requires run.kind == Bidirectional && InSyncCell(c) && run.readOk(job, 0) && run.readOk(job, 1)
    ensures Writes(run, job, Start(run, true), c) == 0
    ensures Bidirect(run, job, c).0
    ensures Bidirect(run, job, c).1.src == c.src && Bidirect(run, job, c).1.tgt == c.tgt
  {
    var v := c.src.value;
    var obj := SyncObject(run.hash(v), run.hash(v), InSync, "", NoDirection);
    assert Next(run, job, BiReadSource, c) == (BiReadTarget(v), Nothing);
    assert Next(run, job, BiReadTarget(v), c) == (Update(obj, true), Nothing);
    RecordingWritesNothing(run, job, obj, c);
  }

  lemma RecordingWritesNothing<V>(run: Run<V>, job: Job, obj: SyncObject, c: Cell<V>)
    ensures Writes(run, job, Update(obj, true), c) == 0
  {
    assert forall c: Cell<V> :: Writes(run, job, Finished(true), c) == 0;
    assert Writes(run, job, Insert(obj, true), c) == 0;
  }

  function Runs<V>(run: Run<V>, job: Job, n: nat, c: Cell<V>): Cell<V> {
    if n == 0 then c else Bidirect(run, job, Runs(run, job, n - 1, c)).1
  }

  /** From any values of the two sides, with the target present or not, and from any record, two runs
      without failures and without outside writes make both sides read equal; every later run writes no
      vault and leaves them as they are. */
  lemma {:induction false} SelfStabilises<V(!new)>(run: Run<V>, job: Job, c: Cell<V>, canon: V -> V, n: nat)
    requires run.kind == Bidirectional && Stabilising(run, job, canon) && c.src.Some? && n >= 2
    ensures InSyncCell(Runs(run, job, n, c))
    ensures Writes(run, job, Start(run, true), Runs(run, job, n, c)) == 0
    ensures Runs(run, job, n, c).src == Runs(run, job, 2, c).src
  {
    if n == 2 {
      assert Runs(run, job, 1, c) == Bidirect(run, job, Runs(run, job, 0, c)).1;
      FirstRun(run, job, c, canon);
      SecondRun(run, job, Runs(run, job, 1, c), canon);
    } else {
      SelfStabilises(run, job, c, canon, n - 1);
      EqualSidesRest(run, job, Runs(run, job, n - 1, c));
    }
    EqualSidesRest(run, job, Runs(run, job, n, c));
  }

  // ---------------------------------------------------------------- alternation of directions

  /** One run over the key, with whatever the vaults hold at that time. */
  datatype Visit<!V> = Visit(run: Run<V>, src: Option<V>, tgt: Option<V>)

  function After<V>(job: Job, v: Visit<V>, row: Option<SyncObject>): Cell<V> {
    Bidirect(v.run, job, Cell(v.src, v.tgt, row)).1
  }

  /** Both sides are read, they differ, and the record is read: the visit resolves a divergence. */
  predicate Diverges<V>(job: Job, v: Visit<V>) {
    && v.run.readOk(job, 0) && v.src.Some? && v.run.readOk(job, 1) && v.tgt.Some?
    && v.run.hash(v.src.value) != v.run.hash(v.tgt.value) && v.run.selectOk(job)
  }

  /** The visit records nothing. */
  predicate Silent<V>(job: Job, v: Visit<V>) {
    || !v.run.readOk(job, 0) || v.src.None?
    || (&& v.run.readOk(job, 1) && v.tgt.Some? && v.run.hash(v.src.value) != v.run.hash(v.tgt.value)
        && !v.run.selectOk(job))
    || ((!v.run.readOk(job, 1) || v.tgt.None?) && (!v.run.readOk(job, 2) || v.run.transform(v.src.value).Err?))
  }

  function Opposite(d: Direction): Direction {
    if d == SourceToTarget then TargetToSource else SourceToTarget
  }

  /** A divergence is resolved against the record, only the other side is written, and the direction is
      recorded whether or not the write succeeded; a silent visit leaves the record. */
  lemma VisitDirection<V>(job: Job, v: Visit<V>, row: Option<SyncObject>)
    ensures Diverges(job, v) && v.run.recordOk(job) ==>
              && After(job, v, row).row.Some?
              && After(job, v, row).row.value.direction == Resolve(row)
              && Resolve(After(job, v, row).row) == Opposite(Resolve(row))
    ensures Diverges(job, v) ==>
              if Resolve(row) == SourceToTarget then After(job, v, row).src == v.src
              else After(job, v, row).tgt == v.tgt
    ensures Silent(job, v) ==> After(job, v, row).row == row
  {}

  /** The directions in which the diverging visits of a history are resolved. */
  function Directions<V>(job: Job, visits: seq<Visit<V>>, row: Option<SyncObject>): seq<Direction>
    decreases |visits|
  {
    if visits == [] then []
    else
      (if Diverges(job, visits[0]) then [Resolve(row)] else [])
      + Directions(job, visits[1..], After(job, visits[0], row).row)
  }

  /** Over a history with a working store in which every visit resolves a divergence or records nothing,
      the directions strictly alternate, failed writes included. */
  lemma {:induction false} DirectionsAlternate<V>(job: Job, visits: seq<Visit<V>>, row: Option<SyncObject>)
    requires forall v | v in visits :: v.run.recordOk(job) && (Diverges(job, v) || Silent(job, v))
    ensures forall k | 0 <= k < |Directions(job, visits, row)| ::
              Directions(job, visits, row)[k] == if k % 2 == 0 then Resolve(row) else Opposite(Resolve(row))
    decreases |visits|
  {
    if visits != [] {
      var row' := After(job, visits[0], row).row;
      assert visits[0] in visits;
      VisitDirection(job, visits[0], row);
      DirectionsAlternate(job, visits[1..], row');
      var rest := Directions(job, visits[1..], row');
      forall k | 0 <= k < |Directions(job, visits, row)|
        ensures Directions(job, visits, row)[k] == if k % 2 == 0 then Resolve(row) else Opposite(Resolve(row))
      {
        if Diverges(job, visits[0]) && k > 0 {
          assert Directions(job, visits, row)[k] == rest[k - 1];
        }
      }
    }
  }

  /** How a streak starts: from the source without a record or after a write to the source; to the source
      after an in-sync record and after the copy that fills a missing target. */
  lemma StreakStart<V>(job: Job, v: Visit<V>, row: Option<SyncObject>)
    requires v.run.recordOk(job) && v.run.readOk(job, 0) && v.src.Some?
    ensures Resolve(None) == SourceToTarget
    ensures v.run.readOk(job, 1) && v.tgt.Some? && v.run.hash(v.src.value) == v.run.hash(v.tgt.value) ==>
              Resolve(After(job, v, row).row) == TargetToSource
    ensures (!v.run.readOk(job, 1) || v.tgt.None?) && v.run.readOk(job, 2) && v.run.transform(v.src.value).Ok? ==>
              Resolve(After(job, v, row).row) == TargetToSource
  {}
}
