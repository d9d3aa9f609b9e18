/**
 * The optimistic-concurrency vote aggregate reconciler
 * (PromptHub.Web/Infrastructure/TableStorage/Stores/TablePromptVoteAggregateStore.cs).
 *
 * Each attempt reads the canonical row, computes clamped counts, writes the row under
 * the entity tag it read and mirrors the counts into the public-newest index. What the
 * rest of the world does during an attempt is its `Event`: a concurrent writer, a
 * failing table call, or nothing.
 */
module AggregateStore {
  import opened Wrappers
  import opened Calendar
  import opened Models
  import opened Tables
  import KeyFormat
  import VisibilityMapper
  import opened EntityMapper

  const MaxAttempts: nat := 5

  /** What happens around one attempt, besides the attempt's own table calls. */
  datatype Event =
    | Quiet
      /** The read fails with this status (404 is turned into a missing row). */
    | ReadFault(status: int)
      /** Another writer replaces the row between this attempt's read and its write. */
    | ConcurrentWrite(entity: PromptEntity)
      /** Another writer removes the row between this attempt's read and its write. */
    | ConcurrentDelete
      /** The conditional update fails with this status and writes nothing. */
    | WriteFault(status: int)
      /** The index upsert fails with this status after the canonical write. */
    | IndexFault(status: int)

  /** One attempt's clock reading (`UpdatedAt`) and its event. */
  datatype Attempt = Attempt(now: Instant, event: Event)

  datatype Outcome = Outcome(
    result: Result<PromptAggregates, Error>,
    prompts: TableState<PromptEntity>,
    index: TableState<IndexEntity>)

  /** Either the attempt is over, or it raised a 412/409 that the loop catches. */
  datatype StepResult =
    | Done(outcome: Outcome)
    | Caught(status: int, prompts: TableState<PromptEntity>, index: TableState<IndexEntity>)

  /** The new count as the source computes it: unchecked `int` addition, then `Math.Max(0, …)`. */
  function NextCountAsWritten(count: Int32, delta: Int32): (r: Int32)
    ensures r >= 0
  {
    var sum := Wrap32(count + delta);
    if sum < 0 then 0 else sum
  }

  /** At Int32.MaxValue one more like wraps the sum negative and the clamp resets the count to zero. */
  lemma LikeAtMaxWrapsToZero()
    ensures NextCountAsWritten(Int32Max, 1) == 0
  {
  }

  /** The intended new count: `max(0, count + delta)`, saturating at Int32.MaxValue. */
  function NextCount(count: Int32, delta: Int32): (r: Int32)
    ensures r >= 0
    ensures count + delta <= 0 ==> r == 0
    ensures 0 <= count + delta <= Int32Max ==> r == count + delta
    ensures count + delta > Int32Max ==> r == Int32Max
  {
    if count + delta < 0 then 0 else if count + delta > Int32Max then Int32Max else count + delta
  }

  /** Away from the Int32 edge, the intended count is exactly what the source computes. */
  lemma NextCountAgreesWithoutOverflow(count: Int32, delta: Int32)
    requires Int32Min <= count + delta <= Int32Max
    ensures NextCount(count, delta) == NextCountAsWritten(count, delta)
  {
  }

  /** Saturation differs from the source at the edge, where the source resets to zero. */
  lemma NextCountSaturates()
    ensures NextCount(Int32Max, 1) == Int32Max != NextCountAsWritten(Int32Max, 1)
  {
  }

  /** The index row mirroring an updated canonical row. */
  function MirrorRow(e: PromptEntity, likes: Int32, dislikes: Int32): (x: IndexEntity)
    ensures x.partitionKey == KeyFormat.PublicNewestPartitionKey(e.createdAt)
    ensures x.rowKey == KeyFormat.IndexRowKey(e.createdAt, e.promptId)
    ensures x.promptId == e.promptId && x.likes == likes && x.dislikes == dislikes
    ensures x.authorId == e.authorId && x.authorEmail == e.authorEmail
    ensures x.title == e.title && x.titleNormalized == e.titleNormalized && x.tags == e.tags
    ensures x.createdAt == e.createdAt && x.updatedAt == e.updatedAt
  {
    IndexEntity(
      partitionKey := KeyFormat.PublicNewestPartitionKey(e.createdAt),
      rowKey := KeyFormat.CreatedAtTicksDesc(e.createdAt) + "|" + e.promptId,
      promptId := e.promptId,
      authorId := e.authorId,
      authorEmail := e.authorEmail,
      title := e.title,
      titleNormalized := e.titleNormalized,
      tags := e.tags,
      createdAt := e.createdAt,
      updatedAt := e.updatedAt,
      likes := likes,
      dislikes := dislikes)
  }

  /** The catch filter: 412 and 409 are retried, everything else propagates. */
  function Handle(status: int, p: TableState<PromptEntity>, x: TableState<IndexEntity>): (r: StepResult)
    ensures r.Caught? <==> status == 412 || status == 409
    ensures r.Caught? ==> r == Caught(status, p, x)
    ensures r.Done? ==> r.outcome == Outcome(Failure(RequestFailed(status)), p, x)
  {
    if status == 412 || status == 409 then Caught(status, p, x)
    else Done(Outcome(Failure(RequestFailed(status)), p, x))
  }

  /** The row as this attempt writes it, from the row it read. */
  function Updated(e: PromptEntity, dl: Int32, dd: Int32, now: Instant): (u: PromptEntity)
    ensures u.(likes := e.likes, dislikes := e.dislikes, updatedAt := e.updatedAt) == e
    ensures u.likes == NextCount(e.likes, dl) && u.dislikes == NextCount(e.dislikes, dd)
    ensures u.updatedAt == now
  {
    e.(likes := NextCount(e.likes, dl), dislikes := NextCount(e.dislikes, dd), updatedAt := now)
  }

  /** A vote update leaves the row's visibility as it was. */
  lemma UpdatedKeepsVisibility(e: PromptEntity, dl: Int32, dd: Int32, now: Instant)
    ensures Updated(e, dl, dd, now).visibility == e.visibility
    ensures IsPublic(Updated(e, dl, dd, now)) == IsPublic(e)
  {
  }

  /** The prompts table after the event's concurrent writer, if any. */
  function Interfere(p: TableState<PromptEntity>, pk: string, promptId: string, ev: Event): (q: TableState<PromptEntity>)
    requires p.Valid()
    ensures q.Valid()
  {
    match ev
    case ConcurrentWrite(w) => p.Upsert(pk, promptId, w)
    case ConcurrentDelete => p.Delete(pk, promptId)
    case _ => p
  }

  /** The conditional write of `e` under tag `etag`, then the index mirror of a public row. */
  function WritePhase(p: TableState<PromptEntity>, x: TableState<IndexEntity>, pk: string, promptId: string,
                      e: PromptEntity, etag: nat, ev: Event): (s: StepResult)
    requires p.Valid() && x.Valid()
    ensures s.Done? ==> s.outcome.prompts.Valid() && s.outcome.index.Valid()
    ensures s.Caught? ==> s.prompts.Valid() && s.index.Valid()
  {
    if ev.WriteFault? then Handle(ev.status, p, x)
    else
      match p.Update(pk, promptId, e, etag)
      case Failure(status) => Handle(status, p, x)
      case Success(p2) =>
        var done := Success(PromptAggregates(e.likes, e.dislikes));
        if !IsPublic(e) then Done(Outcome(done, p2, x))
        else if ev.IndexFault? then Handle(ev.status, p2, x)
        else
          var m := MirrorRow(e, e.likes, e.dislikes);
          Done(Outcome(done, p2, x.Upsert(m.partitionKey, m.rowKey, m)))
  }

  /** One attempt of the loop body. */
  function Step(p: TableState<PromptEntity>, x: TableState<IndexEntity>, pk: string, promptId: string,
                dl: Int32, dd: Int32, a: Attempt): (s: StepResult)
    requires p.Valid() && x.Valid()
    ensures s.Done? ==> s.outcome.prompts.Valid() && s.outcome.index.Valid()
    ensures s.Caught? ==> s.prompts.Valid() && s.index.Valid()
  {
    if a.event.ReadFault? then
      Done(Outcome(Failure(if a.event.status == 404 then PromptNotFound else RequestFailed(a.event.status)), p, x))
    else
      match p.Get(pk, promptId)
      case None => Done(Outcome(Failure(PromptNotFound), p, x))
      case Some(row) =>
        if row.value.isDeleted then Done(Outcome(Failure(PromptNotFound), p, x))
        else WritePhase(Interfere(p, pk, promptId, a.event), x, pk, promptId,
                        Updated(row.value, dl, dd, a.now), row.etag, a.event)
  }

  /** Attempts `i + 1` to `MaxAttempts` of the loop, from table states `p` and `x`. */
  function Attempts(p: TableState<PromptEntity>, x: TableState<IndexEntity>, pk: string, promptId: string,
                    dl: Int32, dd: Int32, attempts: seq<Attempt>, i: nat): (o: Outcome)
    requires p.Valid() && x.Valid() && |attempts| == MaxAttempts
    ensures o.prompts.Valid() && o.index.Valid()
    decreases MaxAttempts - i
  {
    if i >= MaxAttempts then Outcome(Failure(InvalidOperation("Failed to update aggregates.")), p, x)
    else
      match Step(p, x, pk, promptId, dl, dd, attempts[i])
      case Done(o) => o
      case Caught(status, p1, x1) =>
        if i + 1 == MaxAttempts then Outcome(Failure(RequestFailed(status)), p1, x1)
        else Attempts(p1, x1, pk, promptId, dl, dd, attempts, i + 1)
  }

  /** `ApplyVoteDeltaAsync` on table states: a read for a zero delta, else the retry loop. */
  function DeltaOutcome(p: TableState<PromptEntity>, x: TableState<IndexEntity>, authorId: string, promptId: string,
                        dl: Int32, dd: Int32, attempts: seq<Attempt>): (o: Outcome)
    requires p.Valid() && x.Valid() && |attempts| == MaxAttempts
    ensures o.prompts.Valid() && o.index.Valid()
  {
    var pk := KeyFormat.PromptsPartitionKey(authorId);
    if dl == 0 && dd == 0 then
      match p.Get(pk, promptId)
      case None => Outcome(Failure(PromptNotFound), p, x)
      case Some(row) => Outcome(Success(PromptAggregates(row.value.likes, row.value.dislikes)), p, x)
    else Attempts(p, x, pk, promptId, dl, dd, attempts, 0)
  }

  /** A row that an attempt can read: present and not soft-deleted. */
  predicate Live(p: TableState<PromptEntity>, pk: string, promptId: string) {
    p.Get(pk, promptId).Some? && !p.Get(pk, promptId).value.value.isDeleted
  }

  /** With both deltas zero nothing is written: the stored counts come back, even for a soft-deleted row. */
  lemma ZeroDeltaOnlyReads(p: TableState<PromptEntity>, x: TableState<IndexEntity>, authorId: string, promptId: string,
                           attempts: seq<Attempt>)
    requires p.Valid() && x.Valid() && |attempts| == MaxAttempts
    ensures var o := DeltaOutcome(p, x, authorId, promptId, 0, 0, attempts);
      var row := p.Get(KeyFormat.PromptsPartitionKey(authorId), promptId);
      && o.prompts == p && o.index == x
      && (row.None? ==> o.result == Failure(PromptNotFound))
      && (row.Some? ==> o.result == Success(PromptAggregates(row.value.value.likes, row.value.value.dislikes)))
  {
  }

  /** A missing or soft-deleted row is "Prompt not found." and nothing is written. */
  lemma NotFoundWritesNothing(p: TableState<PromptEntity>, x: TableState<IndexEntity>, pk: string, promptId: string,
                              dl: Int32, dd: Int32, attempts: seq<Attempt>, i: nat)
    requires p.Valid() && x.Valid() && |attempts| == MaxAttempts && i < MaxAttempts
    requires !attempts[i].event.ReadFault? && !Live(p, pk, promptId)
    ensures Attempts(p, x, pk, promptId, dl, dd, attempts, i) == Outcome(Failure(PromptNotFound), p, x)
  {
  }

  /** A failed read is not retried, not even a 412 or 409: the read is outside the `try`. */
  lemma ReadFaultNotRetried(p: TableState<PromptEntity>, x: TableState<IndexEntity>, pk: string, promptId: string,
                            dl: Int32, dd: Int32, attempts: seq<Attempt>, i: nat)
    requires p.Valid() && x.Valid() && |attempts| == MaxAttempts && i < MaxAttempts
    requires attempts[i].event.ReadFault? && attempts[i].event.status != 404
    ensures Attempts(p, x, pk, promptId, dl, dd, attempts, i)
      == Outcome(Failure(RequestFailed(attempts[i].event.status)), p, x)
  {
  }

  /**
   * An undisturbed attempt on a live row writes `max(0, old + delta)` counts under a fresh
   * tag, mirrors them into the index row of a public prompt, and returns them.
   */
  lemma QuietAttemptSucceeds(p: TableState<PromptEntity>, x: TableState<IndexEntity>, pk: string, promptId: string,
                             dl: Int32, dd: Int32, attempts: seq<Attempt>, i: nat)
    requires p.Valid() && x.Valid() && |attempts| == MaxAttempts && i < MaxAttempts
    requires attempts[i].event.Quiet? && Live(p, pk, promptId)
    ensures var row := p.Get(pk, promptId).value.value;
      var e := Updated(row, dl, dd, attempts[i].now);
      var m := MirrorRow(e, e.likes, e.dislikes);
      var o := Attempts(p, x, pk, promptId, dl, dd, attempts, i);
      && o.result == Success(PromptAggregates(NextCount(row.likes, dl), NextCount(row.dislikes, dd)))
      && o.prompts == p.Upsert(pk, promptId, e)
      && o.index == (if IsPublic(e) then x.Upsert(m.partitionKey, m.rowKey, m) else x)
  {
  }

  /** A concurrent write makes the conditional update fail with 412; the next attempt re-reads. */
  lemma {:induction false} ConcurrentWriteRetries(p: TableState<PromptEntity>, x: TableState<IndexEntity>, pk: string,
                                                  promptId: string, dl: Int32, dd: Int32, attempts: seq<Attempt>, i: nat)
    requires p.Valid() && x.Valid() && |attempts| == MaxAttempts && i < MaxAttempts
    requires attempts[i].event.ConcurrentWrite? && Live(p, pk, promptId)
    ensures var p1 := p.Upsert(pk, promptId, attempts[i].event.entity);
      Step(p, x, pk, promptId, dl, dd, attempts[i]) == Caught(412, p1, x)
  {
    var row := p.Get(pk, promptId).value;
    var a := attempts[i];
    var e := Updated(row.value, dl, dd, a.now);
    GetTagIsOld(p, pk, promptId);
    var p1 := p.Upsert(pk, promptId, a.event.entity);
    assert Interfere(p, pk, promptId, a.event) == p1;
    GetUpsert(p, pk, promptId, a.event.entity, pk, promptId);
    assert p1.Update(pk, promptId, e, row.etag) == Failure(412);
    assert WritePhase(p1, x, pk, promptId, e, row.etag, a.event) == Caught(412, p1, x);
  }

  /** A conflicting attempt hands the concurrent writer's row to the next attempt, or rethrows the 412 on the last. */
  lemma ConflictStep(p: TableState<PromptEntity>, x: TableState<IndexEntity>, pk: string, promptId: string,
                     dl: Int32, dd: Int32, attempts: seq<Attempt>, i: nat)
    requires p.Valid() && x.Valid() && |attempts| == MaxAttempts && i < MaxAttempts
    requires attempts[i].event.ConcurrentWrite? && Live(p, pk, promptId)
    ensures var w := attempts[i].event.entity;
      var p1 := p.Upsert(pk, promptId, w);
      && p1.Get(pk, promptId) == Some(Row(promptId, w, p.clock))
      && (i + 1 < MaxAttempts ==>
            Attempts(p, x, pk, promptId, dl, dd, attempts, i) == Attempts(p1, x, pk, promptId, dl, dd, attempts, i + 1))
      && (i + 1 == MaxAttempts ==>
            Attempts(p, x, pk, promptId, dl, dd, attempts, i) == Outcome(Failure(RequestFailed(412)), p1, x))
  {
    ConcurrentWriteRetries(p, x, pk, promptId, dl, dd, attempts, i);
    GetUpsert(p, pk, promptId, attempts[i].event.entity, pk, promptId);
  }

  /** The event a conflicting attempt `j` sees writes a live row for the next attempt to read. */
  predicate LiveWriters(attempts: seq<Attempt>, from: nat, to: nat)
    requires to <= |attempts|
  {
    forall j :: from <= j < to ==> attempts[j].event.ConcurrentWrite? && !attempts[j].event.entity.isDeleted
  }

  /**
   * After conflicts on attempts `i` to `k - 1` and an undisturbed attempt `k`, the counts
   * come from the row attempt `k` read: the last concurrent writer's.
   */
  lemma {:induction false} ConflictsThenSuccess(p: TableState<PromptEntity>, x: TableState<IndexEntity>, pk: string,
                                                promptId: string, dl: Int32, dd: Int32, attempts: seq<Attempt>,
                                                i: nat, k: nat)
    requires p.Valid() && x.Valid() && |attempts| == MaxAttempts && i < k < MaxAttempts
    requires Live(p, pk, promptId) && LiveWriters(attempts, i, k) && attempts[k].event.Quiet?
    ensures var read := attempts[k - 1].event.entity;
      Attempts(p, x, pk, promptId, dl, dd, attempts, i).result
        == Success(PromptAggregates(NextCount(read.likes, dl), NextCount(read.dislikes, dd)))
    decreases k - i
  {
    var w := attempts[i].event.entity;
    var p1 := p.Upsert(pk, promptId, w);
    ConflictStep(p, x, pk, promptId, dl, dd, attempts, i);
    assert !w.isDeleted && Live(p1, pk, promptId);
    if k == i + 1 {
      QuietAttemptSucceeds(p1, x, pk, promptId, dl, dd, attempts, k);
    } else {
      assert LiveWriters(attempts, i + 1, k);
      ConflictsThenSuccess(p1, x, pk, promptId, dl, dd, attempts, i + 1, k);
    }
  }

  /**
   * Conflicts on every remaining attempt exhaust the loop: the last 412 is rethrown, the
   * index is untouched and the row is as the last concurrent writer left it.
   */
  lemma {:induction false} ConflictsExhaust(p: TableState<PromptEntity>, x: TableState<IndexEntity>, pk: string,
                                            promptId: string, dl: Int32, dd: Int32, attempts: seq<Attempt>, i: nat)
    requires p.Valid() && x.Valid() && |attempts| == MaxAttempts && i < MaxAttempts
    requires Live(p, pk, promptId) && LiveWriters(attempts, i, MaxAttempts - 1)
    requires attempts[MaxAttempts - 1].event.ConcurrentWrite?
    ensures var o := Attempts(p, x, pk, promptId, dl, dd, attempts, i);
      && o.result == Failure(RequestFailed(412)) && o.index == x
      && o.prompts.Get(pk, promptId).Some?
      && o.prompts.Get(pk, promptId).value.value == attempts[MaxAttempts - 1].event.entity
    decreases MaxAttempts - i
  {
    var w := attempts[i].event.entity;
    var p1 := p.Upsert(pk, promptId, w);
    ConflictStep(p, x, pk, promptId, dl, dd, attempts, i);
    if i + 1 < MaxAttempts {
      assert !w.isDeleted && Live(p1, pk, promptId);
      assert LiveWriters(attempts, i + 1, MaxAttempts - 1);
      ConflictsExhaust(p1, x, pk, promptId, dl, dd, attempts, i + 1);
    }
  }

  /** A failed conditional update other than 412/409 propagates at once and writes nothing. */
  lemma WriteFaultPropagates(p: TableState<PromptEntity>, x: TableState<IndexEntity>, pk: string, promptId: string,
                             dl: Int32, dd: Int32, attempts: seq<Attempt>, i: nat)
    requires p.Valid() && x.Valid() && |attempts| == MaxAttempts && i < MaxAttempts
    requires attempts[i].event.WriteFault? && attempts[i].event.status != 412 && attempts[i].event.status != 409
    requires Live(p, pk, promptId)
    ensures Attempts(p, x, pk, promptId, dl, dd, attempts, i)
      == Outcome(Failure(RequestFailed(attempts[i].event.status)), p, x)
  {
  }

  /** An attempt whose index upsert fails has already written the canonical row. */
  lemma IndexFaultStep(p: TableState<PromptEntity>, x: TableState<IndexEntity>, pk: string, promptId: string,
                       dl: Int32, dd: Int32, a: Attempt)
    requires p.Valid() && x.Valid()
    requires a.event.IndexFault? && Live(p, pk, promptId) && IsPublic(p.Get(pk, promptId).value.value)
    ensures var e := Updated(p.Get(pk, promptId).value.value, dl, dd, a.now);
      Step(p, x, pk, promptId, dl, dd, a) == Handle(a.event.status, p.Upsert(pk, promptId, e), x)
  {
    var row := p.Get(pk, promptId).value;
    var e := Updated(row.value, dl, dd, a.now);
    UpdatedKeepsVisibility(row.value, dl, dd, a.now);
    var p2 := p.Upsert(pk, promptId, e);
    assert p.Update(pk, promptId, e, row.etag) == Success(p2);
    assert IsPublic(e);
    assert WritePhase(p, x, pk, promptId, e, row.etag, a.event) == Handle(a.event.status, p2, x);
    assert Interfere(p, pk, promptId, a.event) == p;
  }

  /** A failed index upsert other than 412/409 propagates, after the canonical row was written. */
  lemma IndexFaultAfterWrite(p: TableState<PromptEntity>, x: TableState<IndexEntity>, pk: string, promptId: string,
                             dl: Int32, dd: Int32, attempts: seq<Attempt>, i: nat)
    requires p.Valid() && x.Valid() && |attempts| == MaxAttempts && i < MaxAttempts
    requires attempts[i].event.IndexFault? && attempts[i].event.status != 412 && attempts[i].event.status != 409
    requires Live(p, pk, promptId) && IsPublic(p.Get(pk, promptId).value.value)
    ensures var e := Updated(p.Get(pk, promptId).value.value, dl, dd, attempts[i].now);
      Attempts(p, x, pk, promptId, dl, dd, attempts, i)
        == Outcome(Failure(RequestFailed(attempts[i].event.status)), p.Upsert(pk, promptId, e), x)
  {
    IndexFaultStep(p, x, pk, promptId, dl, dd, attempts[i]);
  }

  /**
   * A 409/412 from the index upsert is caught after the canonical write went through, so
   * the retry applies the delta a second time.
   */
  lemma {:induction false} IndexConflictReappliesDelta(p: TableState<PromptEntity>, x: TableState<IndexEntity>,
                                                       pk: string, promptId: string, dl: Int32, dd: Int32,
                                                       attempts: seq<Attempt>, i: nat)
    requires p.Valid() && x.Valid() && |attempts| == MaxAttempts && i + 1 < MaxAttempts
    requires attempts[i].event.IndexFault? && (attempts[i].event.status == 412 || attempts[i].event.status == 409)
    requires attempts[i + 1].event.Quiet?
    requires Live(p, pk, promptId) && IsPublic(p.Get(pk, promptId).value.value)
    ensures var row := p.Get(pk, promptId).value.value;
      Attempts(p, x, pk, promptId, dl, dd, attempts, i).result
        == Success(PromptAggregates(NextCount(NextCount(row.likes, dl), dl), NextCount(NextCount(row.dislikes, dd), dd)))
  {
    var row := p.Get(pk, promptId).value.value;
    var e := Updated(row, dl, dd, attempts[i].now);
    IndexConflictStep(p, x, pk, promptId, dl, dd, attempts, i);
    UpdatedKeepsVisibility(row, dl, dd, attempts[i].now);
    QuietAttemptSucceeds(p.Upsert(pk, promptId, e), x, pk, promptId, dl, dd, attempts, i + 1);
  }

  /** A caught index conflict hands the row this attempt wrote to the next attempt. */
  lemma IndexConflictStep(p: TableState<PromptEntity>, x: TableState<IndexEntity>, pk: string, promptId: string,
                          dl: Int32, dd: Int32, attempts: seq<Attempt>, i: nat)
    requires p.Valid() && x.Valid() && |attempts| == MaxAttempts && i + 1 < MaxAttempts
    requires attempts[i].event.IndexFault? && (attempts[i].event.status == 412 || attempts[i].event.status == 409)
    requires Live(p, pk, promptId) && IsPublic(p.Get(pk, promptId).value.value)
    ensures var e := Updated(p.Get(pk, promptId).value.value, dl, dd, attempts[i].now);
      var p1 := p.Upsert(pk, promptId, e);
      && p1.Get(pk, promptId) == Some(Row(promptId, e, p.clock))
      && Attempts(p, x, pk, promptId, dl, dd, attempts, i) == Attempts(p1, x, pk, promptId, dl, dd, attempts, i + 1)
  {
    var e := Updated(p.Get(pk, promptId).value.value, dl, dd, attempts[i].now);
    IndexFaultStep(p, x, pk, promptId, dl, dd, attempts[i]);
    GetUpsert(p, pk, promptId, e, pk, promptId);
  }

  /** A successful write phase stored `e` and, for a public row, its mirror. */
  lemma WritePhaseSuccess(p: TableState<PromptEntity>, x: TableState<IndexEntity>, pk: string, promptId: string,
                          e: PromptEntity, etag: nat, ev: Event)
    requires p.Valid() && x.Valid()
    ensures var s := WritePhase(p, x, pk, promptId, e, etag, ev);
      var m := MirrorRow(e, e.likes, e.dislikes);
      s.Done? && s.outcome.result.Success? ==>
        && s.outcome.result.value == PromptAggregates(e.likes, e.dislikes)
        && s.outcome.prompts == p.Upsert(pk, promptId, e)
        && s.outcome.index == (if IsPublic(e) then x.Upsert(m.partitionKey, m.rowKey, m) else x)
  {
    if !ev.WriteFault? && p.Update(pk, promptId, e, etag).Success? {
      var p2 := p.Upsert(pk, promptId, e);
      assert p.Update(pk, promptId, e, etag) == Success(p2);
    }
  }

  /** What a successful attempt leaves behind: the counts it returns, stored and mirrored. */
  predicate StoredAndMirrored(o: Outcome, x: TableState<IndexEntity>, pk: string, promptId: string)
    requires o.result.Success?
  {
    var stored := o.prompts.Get(pk, promptId);
    && stored.Some? && stored.value.value.likes == o.result.value.likes
    && stored.value.value.dislikes == o.result.value.dislikes
    && (IsPublic(stored.value.value) ==>
          var m := MirrorRow(stored.value.value, o.result.value.likes, o.result.value.dislikes);
          o.index.Get(m.partitionKey, m.rowKey) == Some(Row(m.rowKey, m, x.clock)))
    && (!IsPublic(stored.value.value) ==> o.index == x)
  }

  /** One successful attempt satisfies `StoredAndMirrored` against the index it started from. */
  lemma StepSuccessIsStored(p: TableState<PromptEntity>, x: TableState<IndexEntity>, pk: string, promptId: string,
                            dl: Int32, dd: Int32, a: Attempt)
    requires p.Valid() && x.Valid()
    ensures var s := Step(p, x, pk, promptId, dl, dd, a);
      s.Done? && s.outcome.result.Success? ==>
        && s.outcome.result.value.likes >= 0 && s.outcome.result.value.dislikes >= 0
        && StoredAndMirrored(s.outcome, x, pk, promptId)
  {
    var s := Step(p, x, pk, promptId, dl, dd, a);
    if s.Done? && s.outcome.result.Success? {
      var row := p.Get(pk, promptId).value.value;
      var e := Updated(row, dl, dd, a.now);
      var p1 := Interfere(p, pk, promptId, a.event);
      var etag := p.Get(pk, promptId).value.etag;
      assert s == WritePhase(p1, x, pk, promptId, e, etag, a.event);
      WritePhaseSuccess(p1, x, pk, promptId, e, etag, a.event);
      GetUpsert(p1, pk, promptId, e, pk, promptId);
      if IsPublic(e) {
        var m := MirrorRow(e, e.likes, e.dislikes);
        GetUpsert(x, m.partitionKey, m.rowKey, m, m.partitionKey, m.rowKey);
      }
    }
  }

  /** On success the returned counts are the ones stored, never negative, and mirrored for a public row. */
  lemma {:induction false} SuccessIsStored(p: TableState<PromptEntity>, x: TableState<IndexEntity>, pk: string,
                                           promptId: string, dl: Int32, dd: Int32, attempts: seq<Attempt>, i: nat)
    requires p.Valid() && x.Valid() && |attempts| == MaxAttempts
    ensures var o := Attempts(p, x, pk, promptId, dl, dd, attempts, i);
      o.result.Success? ==>
        && o.result.value.likes >= 0 && o.result.value.dislikes >= 0
        && StoredAndMirrored(o, x, pk, promptId)
    decreases MaxAttempts - i
  {
    if i < MaxAttempts {
      var s := Step(p, x, pk, promptId, dl, dd, attempts[i]);
      if s.Caught? {
        if i + 1 < MaxAttempts {
          StepCaughtKeepsIndex(p, x, pk, promptId, dl, dd, attempts[i]);
          assert Attempts(p, x, pk, promptId, dl, dd, attempts, i)
            == Attempts(s.prompts, x, pk, promptId, dl, dd, attempts, i + 1);
          SuccessIsStored(s.prompts, x, pk, promptId, dl, dd, attempts, i + 1);
        }
      } else {
        assert Attempts(p, x, pk, promptId, dl, dd, attempts, i) == s.outcome;
        StepSuccessIsStored(p, x, pk, promptId, dl, dd, attempts[i]);
      }
    }
  }

  /** A caught write phase leaves the index as it found it. */
  lemma WritePhaseCaughtKeepsIndex(p: TableState<PromptEntity>, x: TableState<IndexEntity>, pk: string,
                                   promptId: string, e: PromptEntity, etag: nat, ev: Event)
    requires p.Valid() && x.Valid()
    ensures var s := WritePhase(p, x, pk, promptId, e, etag, ev);
      s.Caught? ==> s.index == x
  {
  }

  /** A retried attempt leaves the index as it found it. */
  lemma StepCaughtKeepsIndex(p: TableState<PromptEntity>, x: TableState<IndexEntity>, pk: string, promptId: string,
                             dl: Int32, dd: Int32, a: Attempt)
    requires p.Valid() && x.Valid()
    ensures Step(p, x, pk, promptId, dl, dd, a).Caught? ==> Step(p, x, pk, promptId, dl, dd, a).index == x
  {
    if !a.event.ReadFault? && Live(p, pk, promptId) {
      var row := p.Get(pk, promptId).value;
      var p1 := Interfere(p, pk, promptId, a.event);
      var e := Updated(row.value, dl, dd, a.now);
      assert Step(p, x, pk, promptId, dl, dd, a) == WritePhase(p1, x, pk, promptId, e, row.etag, a.event);
      WritePhaseCaughtKeepsIndex(p1, x, pk, promptId, e, row.etag, a.event);
    }
  }

  /** The loop never falls through to "Failed to update aggregates.": its last attempt always returns or rethrows. */
  lemma {:induction false} FallbackUnreachable(p: TableState<PromptEntity>, x: TableState<IndexEntity>, pk: string,
                                               promptId: string, dl: Int32, dd: Int32, attempts: seq<Attempt>, i: nat)
    requires p.Valid() && x.Valid() && |attempts| == MaxAttempts && i < MaxAttempts
    ensures Attempts(p, x, pk, promptId, dl, dd, attempts, i).result
      != Failure(InvalidOperation("Failed to update aggregates."))
    decreases MaxAttempts - i
  {
    var s := Step(p, x, pk, promptId, dl, dd, attempts[i]);
    if s.Caught? && i + 1 < MaxAttempts {
      FallbackUnreachable(s.prompts, s.index, pk, promptId, dl, dd, attempts, i + 1);
    } else if s.Done? {
      StepErrors(p, x, pk, promptId, dl, dd, attempts[i]);
      assert |PromptNotFound.message| != |"Failed to update aggregates."|;
    }
  }

  /** The write phase ends in success or a table failure. */
  lemma WritePhaseErrors(p: TableState<PromptEntity>, x: TableState<IndexEntity>, pk: string, promptId: string,
                         e: PromptEntity, etag: nat, ev: Event)
    requires p.Valid() && x.Valid()
    ensures var s := WritePhase(p, x, pk, promptId, e, etag, ev);
      s.Done? ==> s.outcome.result.Success? || s.outcome.result.error.RequestFailed?
  {
    if !ev.WriteFault? && p.Update(pk, promptId, e, etag).Success? && IsPublic(e) && ev.IndexFault? {
      assert WritePhase(p, x, pk, promptId, e, etag, ev)
        == Handle(ev.status, p.Update(pk, promptId, e, etag).value, x);
    }
  }

  /** A single attempt ends in success, "Prompt not found." or a table failure. */
  lemma StepErrors(p: TableState<PromptEntity>, x: TableState<IndexEntity>, pk: string, promptId: string,
                   dl: Int32, dd: Int32, a: Attempt)
    requires p.Valid() && x.Valid()
    ensures var s := Step(p, x, pk, promptId, dl, dd, a);
      s.Done? ==> s.outcome.result.Success? || s.outcome.result == Failure(PromptNotFound)
                  || s.outcome.result.error.RequestFailed?
  {
    if !a.event.ReadFault? && Live(p, pk, promptId) {
      var row := p.Get(pk, promptId).value;
      var p1 := Interfere(p, pk, promptId, a.event);
      var e := Updated(row.value, dl, dd, a.now);
      assert Step(p, x, pk, promptId, dl, dd, a) == WritePhase(p1, x, pk, promptId, e, row.etag, a.event);
      WritePhaseErrors(p1, x, pk, promptId, e, row.etag, a.event);
    }
  }

  /** The stored-aggregates store over the prompts table and the public-newest index. */
  class TablePromptVoteAggregateStore {
    const prompts: Table<PromptEntity>
    const index: Table<IndexEntity>

    constructor (prompts: Table<PromptEntity>, index: Table<IndexEntity>)
      ensures this.prompts == prompts && this.index == index
    {
      this.prompts := prompts;
      this.index := index;
    }

    method ApplyVoteDelta(authorId: string, promptId: string, dl: Int32, dd: Int32, attempts: seq<Attempt>)
      returns (r: Result<PromptAggregates, Error>)
      requires prompts.Valid() && index.Valid() && |attempts| == MaxAttempts
      modifies prompts, index
      ensures prompts.Valid() && index.Valid()
      ensures var o := DeltaOutcome(old(prompts.state), old(index.state), authorId, promptId, dl, dd, attempts);
        r == o.result && prompts.state == o.prompts && index.state == o.index
    {
      var pk := KeyFormat.PromptsPartitionKey(authorId);
      if dl == 0 && dd == 0 {
        var current := prompts.Get(pk, promptId);
        if current.None? {
          return Failure(PromptNotFound);
        }
        return Success(PromptAggregates(current.value.value.likes, current.value.value.dislikes));
      }
      ghost var goal := Attempts(prompts.state, index.state, pk, promptId, dl, dd, attempts, 0);
      var attempt := 1;
      while attempt <= MaxAttempts
        invariant 1 <= attempt <= MaxAttempts + 1
        invariant prompts.Valid() && index.Valid()
        invariant Attempts(prompts.state, index.state, pk, promptId, dl, dd, attempts, attempt - 1) == goal
        decreases MaxAttempts + 1 - attempt
      {
        var finished, result, status := TryAttempt(pk, promptId, dl, dd, attempts, attempt - 1);
        if finished {
          return result;
        }
        if attempt == MaxAttempts {
          return Failure(RequestFailed(status));
        }
        attempt := attempt + 1;
      }
      r := Failure(InvalidOperation("Failed to update aggregates."));
    }

    /**
     * Attempt `i` of the loop body: either the loop is over with `result`, or the attempt
     * raised a 412/409 (`status`) that the loop catches.
     */
    method TryAttempt(pk: string, promptId: string, dl: Int32, dd: Int32, attempts: seq<Attempt>, i: nat)
      returns (finished: bool, result: Result<PromptAggregates, Error>, status: int)
      requires prompts.Valid() && index.Valid() && |attempts| == MaxAttempts && i < MaxAttempts
      modifies prompts, index
      ensures prompts.Valid() && index.Valid()
      ensures var o := Attempts(old(prompts.state), old(index.state), pk, promptId, dl, dd, attempts, i);
        && (finished ==> o == Outcome(result, prompts.state, index.state))
        && (!finished && i + 1 < MaxAttempts ==>
              o == Attempts(prompts.state, index.state, pk, promptId, dl, dd, attempts, i + 1))
        && (!finished && i + 1 == MaxAttempts ==>
              o == Outcome(Failure(RequestFailed(status)), prompts.state, index.state))
    {
      ghost var p0, x0 := prompts.state, index.state;
      var a := attempts[i];
      status := 0;
      if a.event.ReadFault? {
        return true, Failure(if a.event.status == 404 then PromptNotFound else RequestFailed(a.event.status)), 0;
      }
      var row := prompts.Get(pk, promptId);
      if row.None? || row.value.value.isDeleted {
        return true, Failure(PromptNotFound), 0;
      }
      var entity := row.value.value;
      var nextLikes := NextCount(entity.likes, dl);
      var nextDislikes := NextCount(entity.dislikes, dd);
      entity := entity.(likes := nextLikes, dislikes := nextDislikes, updatedAt := a.now);
      Interleave(pk, promptId, a.event);
      var failure := WriteAttempt(pk, promptId, entity, row.value.etag, a.event);
      assert Step(p0, x0, pk, promptId, dl, dd, a)
        == WritePhase(Interfere(p0, pk, promptId, a.event), x0, pk, promptId, entity, row.value.etag, a.event);
      if failure.None? {
        return true, Success(PromptAggregates(nextLikes, nextDislikes)), 0;
      }
      status := failure.value;
      if !(status == 412 || status == 409) {
        return true, Failure(RequestFailed(status)), status;
      }
      finished, result := false, Failure(RequestFailed(status));
    }

    /** The event's concurrent writer, if any, acting on the prompts table. */
    method Interleave(pk: string, promptId: string, ev: Event)
      requires prompts.Valid()
      modifies prompts
      ensures prompts.Valid() && prompts.state == Interfere(old(prompts.state), pk, promptId, ev)
    {
      match ev {
        case ConcurrentWrite(w) => prompts.Upsert(pk, promptId, w);
        case ConcurrentDelete => prompts.Delete(pk, promptId);
        case _ =>
      }
    }

    /** The `try` block: the conditional update, then the mirror of a public row. */
    method WriteAttempt(pk: string, promptId: string, entity: PromptEntity, etag: nat, ev: Event)
      returns (failure: Option<int>)
      requires prompts.Valid() && index.Valid()
      modifies prompts, index
      ensures prompts.Valid() && index.Valid()
      ensures var s := WritePhase(old(prompts.state), old(index.state), pk, promptId, entity, etag, ev);
        if failure.None?
        then s == Done(Outcome(Success(PromptAggregates(entity.likes, entity.dislikes)), prompts.state, index.state))
        else s == Handle(failure.value, prompts.state, index.state)
    {
      if ev.WriteFault? {
        return Some(ev.status);
      }
      // the row read back carries the keys it was read under
      failure := prompts.Update(pk, promptId, entity, etag);
      if failure.None? && IsPublic(entity) {
        if ev.IndexFault? {
          failure := Some(ev.status);
        } else {
          var mirror := MirrorRow(entity, entity.likes, entity.dislikes);
          index.Upsert(mirror.partitionKey, mirror.rowKey, mirror);
        }
      }
    }
  }
}
