/**
 * Prompt writes against the canonical prompts table and the public-newest index
 * (PromptHub.Web/Infrastructure/TableStorage/Stores/TablePromptWriteStore.cs).
 *
 * The new prompt id (`Guid.NewGuid`) and the clock readings are parameters: `FromModel`
 * reads the clock once (`now1`) and the index projection reads it again (`now2`).
 */
module WriteStore {
  import opened Wrappers
  import opened Calendar
  import opened Models
  import opened Tables
  import Ascii
  import KeyFormat
  import TagString
  import VisibilityMapper
  import opened EntityMapper
  import AggregateStore

  /** The result of a write operation and both tables afterwards. */
  datatype WriteOutcome<R> = WriteOutcome(
    result: Result<R, Error>,
    prompts: TableState<PromptEntity>,
    index: TableState<IndexEntity>)

  /** The public-newest index row for a model; a default creation time takes the clock reading `now`. */
  function ToPublicNewestIndexEntity(m: PromptModel, now: Instant): (x: IndexEntity)
    ensures x.createdAt == (if m.createdAt == DefaultInstant then now else m.createdAt)
    ensures x.partitionKey == KeyFormat.PublicNewestPartitionKey(x.createdAt)
    ensures x.rowKey == KeyFormat.IndexRowKey(x.createdAt, m.promptId)
    ensures x.promptId == m.promptId && x.authorId == m.authorId && x.authorEmail == m.authorEmail
    ensures x.title == Ascii.Trim(m.title) && x.titleNormalized == Ascii.ToLower(x.title)
    ensures Ascii.IsTrimmed(x.title) && Ascii.IsLower(x.titleNormalized)
    ensures x.tags == TagString.ToDelimited(m.tags)
    ensures x.updatedAt == (if m.updatedAt == DefaultInstant then x.createdAt else m.updatedAt)
    ensures x.likes == m.likes && x.dislikes == m.dislikes
  {
    var createdAt := if m.createdAt == DefaultInstant then now else m.createdAt;
    var title := Ascii.Trim(m.title);
    IndexEntity(
      partitionKey := KeyFormat.PublicNewestPartitionKey(createdAt),
      rowKey := KeyFormat.CreatedAtTicksDesc(createdAt) + "|" + m.promptId,
      promptId := m.promptId,
      authorId := m.authorId,
      authorEmail := m.authorEmail,
      title := title,
      titleNormalized := Ascii.ToLower(title),
      tags := TagString.ToDelimited(m.tags),
      createdAt := createdAt,
      updatedAt := if m.updatedAt == DefaultInstant then createdAt else m.updatedAt,
      likes := m.likes,
      dislikes := m.dislikes)
  }

  /**
   * For a model with both timestamps set, the write store's index row is the row the
   * aggregate reconciler mirrors from the stored canonical row, except that it carries
   * the model's author e-mail.
   */
  lemma IndexRowMirrorsStoredRow(m: PromptModel, now1: Instant, now2: Instant)
    requires m.createdAt != DefaultInstant && m.updatedAt != DefaultInstant
    ensures ToPublicNewestIndexEntity(m, now2) ==
      AggregateStore.MirrorRow(FromModel(m, now1), m.likes, m.dislikes).(authorEmail := m.authorEmail)
  {
  }

  /** `CreateAsync`: add the row under the fresh id, then index it when public. */
  function CreateOutcome(p: TableState<PromptEntity>, x: TableState<IndexEntity>,
                         prompt: PromptModel, newId: string, now1: Instant, now2: Instant): (o: WriteOutcome<PromptModel>)
    requires p.Valid() && x.Valid()
    ensures o.prompts.Valid() && o.index.Valid()
  {
    var newPrompt := prompt.(promptId := newId);
    var entity := FromModel(newPrompt, now1);
    match p.Add(entity.partitionKey, entity.rowKey, entity)
    case Failure(status) => WriteOutcome(Failure(RequestFailed(status)), p, x)
    case Success(p1) =>
      var created := newPrompt.(etag := None);
      if created.visibility == Public then
        var ie := ToPublicNewestIndexEntity(created, now2);
        WriteOutcome(Success(created), p1, x.Upsert(ie.partitionKey, ie.rowKey, ie))
      else
        WriteOutcome(Success(created), p1, x)
  }

  /** `UpdateAsync`: conditional replace, then move the index row. */
  function UpdateOutcome(p: TableState<PromptEntity>, x: TableState<IndexEntity>,
                         prompt: PromptModel, expectedETag: nat, now1: Instant, now2: Instant): (o: WriteOutcome<PromptModel>)
    requires p.Valid() && x.Valid()
    ensures o.prompts.Valid() && o.index.Valid()
  {
    match p.Get(KeyFormat.PromptsPartitionKey(prompt.authorId), prompt.promptId)
    case None => WriteOutcome(Failure(PromptNotFound), p, x)
    case Some(row) =>
      if row.value.isDeleted then WriteOutcome(Failure(PromptNotFound), p, x)
      else
        var updated := FromModel(prompt, now1);
        match p.Update(updated.partitionKey, updated.rowKey, updated, expectedETag)
        case Failure(status) => WriteOutcome(Failure(RequestFailed(status)), p, x)
        case Success(p1) =>
          var existing := row.value;
          var x1 := if IsPublic(existing) then
              x.Delete(KeyFormat.PublicNewestPartitionKey(existing.createdAt),
                       KeyFormat.IndexRowKey(existing.createdAt, existing.promptId))
            else x;
          var updatedPrompt := prompt.(etag := None);
          if updatedPrompt.visibility == Public then
            var ie := ToPublicNewestIndexEntity(updatedPrompt, now2);
            WriteOutcome(Success(updatedPrompt), p1, x1.Upsert(ie.partitionKey, ie.rowKey, ie))
          else
            WriteOutcome(Success(updatedPrompt), p1, x1)
  }

  /** `SoftDeleteAsync`: mark the row deleted under the tag it was read with, then drop its index row. */
  function SoftDeleteOutcome(p: TableState<PromptEntity>, x: TableState<IndexEntity>,
                             authorId: string, promptId: string): (o: WriteOutcome<()>)
    requires p.Valid() && x.Valid()
    ensures o.prompts.Valid() && o.index.Valid()
  {
    var pk := KeyFormat.PromptsPartitionKey(authorId);
    match p.Get(pk, promptId)
    case None => WriteOutcome(Success(()), p, x)
    case Some(row) =>
      var entity := row.value.(isDeleted := true);
      match p.Update(pk, promptId, entity, row.etag)
      case Failure(status) => WriteOutcome(Failure(RequestFailed(status)), p, x)
      case Success(p1) =>
        if IsPublic(entity) then
          WriteOutcome(Success(()), p1,
            x.Delete(KeyFormat.PublicNewestPartitionKey(entity.createdAt),
                     KeyFormat.IndexRowKey(entity.createdAt, entity.promptId)))
        else WriteOutcome(Success(()), p1, x)
  }

  // ---------------------------------------------------------------------------------
  // Index consistency
  // ---------------------------------------------------------------------------------

  /** The index holds a row at (pk, rk) that names `promptId`. */
  predicate IndexedAt(x: TableState<IndexEntity>, promptId: string, pk: string, rk: string) {
    x.Get(pk, rk).Some? && x.Get(pk, rk).value.value.promptId == promptId
  }

  /** Where the index row of a canonical row belongs: live public rows only. */
  function ExpectedIndexKey(row: Option<Row<PromptEntity>>): (k: Option<(string, string)>)
    ensures k.Some? <==> row.Some? && !row.value.value.isDeleted && IsPublic(row.value.value)
  {
    if row.Some? && !row.value.value.isDeleted && IsPublic(row.value.value) then
      var e := row.value.value;
      Some((KeyFormat.PublicNewestPartitionKey(e.createdAt), KeyFormat.IndexRowKey(e.createdAt, e.promptId)))
    else None
  }

  /**
   * The index agrees with the canonical row of (authorId, promptId): the row names its own
   * id, and the index names the prompt at exactly one key when the row is live and public,
   * at none otherwise.
   */
  ghost predicate IndexAgrees(p: TableState<PromptEntity>, x: TableState<IndexEntity>, authorId: string, promptId: string) {
    var row := p.Get(KeyFormat.PromptsPartitionKey(authorId), promptId);
    (row.Some? ==> row.value.value.promptId == promptId)
    && forall pk, rk :: IndexedAt(x, promptId, pk, rk) <==> ExpectedIndexKey(row) == Some((pk, rk))
  }

  /** Every index row sits at the key its creation time and prompt id give. */
  ghost predicate WellKeyed(x: TableState<IndexEntity>) {
    forall pk, rk :: x.Get(pk, rk).Some? ==>
      rk == KeyFormat.IndexRowKey(x.Get(pk, rk).value.value.createdAt, x.Get(pk, rk).value.value.promptId)
  }

  /** Rows naming other prompts are the same in both index states. */
  ghost predicate OthersKept(x: TableState<IndexEntity>, x2: TableState<IndexEntity>, promptId: string) {
    forall id, pk, rk :: id != promptId ==> (IndexedAt(x2, id, pk, rk) <==> IndexedAt(x, id, pk, rk))
  }

  lemma IndexedAfterUpsert(x: TableState<IndexEntity>, ie: IndexEntity, id: string, pk: string, rk: string)
    requires x.Valid()
    ensures IndexedAt(x.Upsert(ie.partitionKey, ie.rowKey, ie), id, pk, rk) ==
      if pk == ie.partitionKey && rk == ie.rowKey then ie.promptId == id else IndexedAt(x, id, pk, rk)
  {
    GetUpsert(x, ie.partitionKey, ie.rowKey, ie, pk, rk);
  }

  lemma IndexedAfterDelete(x: TableState<IndexEntity>, pk0: string, rk0: string, id: string, pk: string, rk: string)
    requires x.Valid()
    ensures IndexedAt(x.Delete(pk0, rk0), id, pk, rk) == (!(pk == pk0 && rk == rk0) && IndexedAt(x, id, pk, rk))
  {
    GetDelete(x, pk0, rk0, pk, rk);
  }

  /** Upserting a well-keyed row keeps the index well keyed and leaves other prompts' rows alone. */
  lemma {:induction false} UpsertKeepsOthers(x: TableState<IndexEntity>, ie: IndexEntity)
    requires x.Valid() && WellKeyed(x)
    requires ie.rowKey == KeyFormat.IndexRowKey(ie.createdAt, ie.promptId)
    ensures WellKeyed(x.Upsert(ie.partitionKey, ie.rowKey, ie))
    ensures OthersKept(x, x.Upsert(ie.partitionKey, ie.rowKey, ie), ie.promptId)
  {
    var x2 := x.Upsert(ie.partitionKey, ie.rowKey, ie);
    forall pk, rk | x2.Get(pk, rk).Some?
      ensures rk == KeyFormat.IndexRowKey(x2.Get(pk, rk).value.value.createdAt, x2.Get(pk, rk).value.value.promptId)
    {
      GetUpsert(x, ie.partitionKey, ie.rowKey, ie, pk, rk);
    }
    forall id, pk, rk | id != ie.promptId
      ensures IndexedAt(x2, id, pk, rk) <==> IndexedAt(x, id, pk, rk)
    {
      IndexedAfterUpsert(x, ie, id, pk, rk);
      if pk == ie.partitionKey && rk == ie.rowKey && IndexedAt(x, id, pk, rk) {
        var v := x.Get(pk, rk).value.value;
        KeyFormat.IndexRowKeyInjective(v.createdAt, v.promptId, ie.createdAt, ie.promptId);
      }
    }
  }

  /** Deleting the key of one prompt keeps the index well keyed and leaves other prompts' rows alone. */
  lemma {:induction false} DeleteKeepsOthers(x: TableState<IndexEntity>, pk0: string, createdAt: Instant, promptId: string)
    requires x.Valid() && WellKeyed(x)
    ensures WellKeyed(x.Delete(pk0, KeyFormat.IndexRowKey(createdAt, promptId)))
    ensures OthersKept(x, x.Delete(pk0, KeyFormat.IndexRowKey(createdAt, promptId)), promptId)
  {
    var rk0 := KeyFormat.IndexRowKey(createdAt, promptId);
    var x2 := x.Delete(pk0, rk0);
    forall pk, rk | x2.Get(pk, rk).Some?
      ensures rk == KeyFormat.IndexRowKey(x2.Get(pk, rk).value.value.createdAt, x2.Get(pk, rk).value.value.promptId)
    {
      GetDelete(x, pk0, rk0, pk, rk);
    }
    forall id, pk, rk | id != promptId
      ensures IndexedAt(x2, id, pk, rk) <==> IndexedAt(x, id, pk, rk)
    {
      IndexedAfterDelete(x, pk0, rk0, id, pk, rk);
      if pk == pk0 && rk == rk0 && IndexedAt(x, id, pk, rk) {
        var v := x.Get(pk, rk).value.value;
        KeyFormat.IndexRowKeyInjective(v.createdAt, v.promptId, createdAt, promptId);
      }
    }
  }

  // ---------------------------------------------------------------------------------
  // Create
  // ---------------------------------------------------------------------------------

  /**
   * Create succeeds exactly when the fresh id is unused under the author; it then stores the
   * mapped row and returns the model under the new id with no entity tag. A taken id gives
   * 409 and writes nothing.
   */
  lemma CreateStores(p: TableState<PromptEntity>, x: TableState<IndexEntity>,
                     prompt: PromptModel, newId: string, now1: Instant, now2: Instant)
    requires p.Valid() && x.Valid()
    ensures var o := CreateOutcome(p, x, prompt, newId, now1, now2);
      var pk := KeyFormat.PromptsPartitionKey(prompt.authorId);
      (o.result.Success? <==> p.Get(pk, newId).None?)
      && (o.result.Success? ==>
            o.result.value == prompt.(promptId := newId, etag := None)
            && o.prompts.Get(pk, newId) == Some(Row(newId, FromModel(prompt.(promptId := newId), now1), p.clock))
            && forall pk2, rk2 :: (pk2, rk2) != (pk, newId) ==> o.prompts.Get(pk2, rk2) == p.Get(pk2, rk2))
      && (o.result.Failure? ==> o.result.error == RequestFailed(409) && o.prompts == p && o.index == x)
  {
    var newPrompt := prompt.(promptId := newId);
    var entity := FromModel(newPrompt, now1);
    var pk := KeyFormat.PromptsPartitionKey(prompt.authorId);
    if p.Get(pk, newId).None? {
      forall pk2, rk2 ensures p.Upsert(pk, newId, entity).Get(pk2, rk2) ==
        if pk2 == pk && rk2 == newId then Some(Row(newId, entity, p.clock)) else p.Get(pk2, rk2)
      {
        GetUpsert(p, pk, newId, entity, pk2, rk2);
      }
    }
  }

  /**
   * A successful create of a fresh id leaves the index agreeing with the new row, and other
   * prompts' index rows untouched, provided the creation time is set or both clock readings
   * coincide.
   */
  lemma {:induction false} CreateKeepsIndexConsistent(p: TableState<PromptEntity>, x: TableState<IndexEntity>,
                                     prompt: PromptModel, newId: string, now1: Instant, now2: Instant)
    requires p.Valid() && x.Valid() && WellKeyed(x)
    requires IndexAgrees(p, x, prompt.authorId, newId)
    requires prompt.createdAt != DefaultInstant || now1 == now2
    ensures var o := CreateOutcome(p, x, prompt, newId, now1, now2);
      o.result.Success? ==>
        IndexAgrees(o.prompts, o.index, prompt.authorId, newId) && WellKeyed(o.index) && OthersKept(x, o.index, newId)
  {
    var o := CreateOutcome(p, x, prompt, newId, now1, now2);
    var newPrompt := prompt.(promptId := newId);
    var entity := FromModel(newPrompt, now1);
    var pk := KeyFormat.PromptsPartitionKey(prompt.authorId);
    if o.result.Success? {
      CreateStores(p, x, prompt, newId, now1, now2);
      var row := o.prompts.Get(pk, newId);
      assert row == Some(Row(newId, entity, p.clock));
      VisibilityMapper.RoundTrip(prompt.visibility);
      assert IsPublic(entity) <==> prompt.visibility == Public;
      assert p.Get(pk, newId).None?;
      if prompt.visibility == Public {
        var ie := ToPublicNewestIndexEntity(newPrompt.(etag := None), now2);
        assert o.index == x.Upsert(ie.partitionKey, ie.rowKey, ie);
        assert ie.createdAt == entity.createdAt;
        forall pk2, rk2 ensures IndexedAt(o.index, newId, pk2, rk2) <==> ExpectedIndexKey(row) == Some((pk2, rk2)) {
          IndexedAfterUpsert(x, ie, newId, pk2, rk2);
        }
        UpsertKeepsOthers(x, ie);
      } else {
        assert o.index == x;
      }
    }
  }

  // ---------------------------------------------------------------------------------
  // Update
  // ---------------------------------------------------------------------------------

  /**
   * Update fails with "Prompt not found." exactly when there is no live row under the
   * prompt's author and id, and then writes nothing.
   */
  lemma UpdateNotFound(p: TableState<PromptEntity>, x: TableState<IndexEntity>,
                       prompt: PromptModel, expectedETag: nat, now1: Instant, now2: Instant)
    requires p.Valid() && x.Valid()
    ensures var o := UpdateOutcome(p, x, prompt, expectedETag, now1, now2);
      var row := p.Get(KeyFormat.PromptsPartitionKey(prompt.authorId), prompt.promptId);
      (o.result == Failure(PromptNotFound) <==> row.None? || row.value.value.isDeleted)
      && (o.result == Failure(PromptNotFound) ==> o.prompts == p && o.index == x)
  {
  }

  /**
   * On a live row, Update succeeds exactly when the expected tag is the row's; a stale tag
   * fails with 412 and writes neither table. On success the row is the mapped model and
   * the returned model carries no entity tag.
   */
  lemma UpdateIsConditional(p: TableState<PromptEntity>, x: TableState<IndexEntity>,
                            prompt: PromptModel, expectedETag: nat, now1: Instant, now2: Instant)
    requires p.Valid() && x.Valid()
    requires var row := p.Get(KeyFormat.PromptsPartitionKey(prompt.authorId), prompt.promptId);
      row.Some? && !row.value.value.isDeleted
    ensures var o := UpdateOutcome(p, x, prompt, expectedETag, now1, now2);
      var pk := KeyFormat.PromptsPartitionKey(prompt.authorId);
      (o.result.Success? <==> p.Get(pk, prompt.promptId).value.etag == expectedETag)
      && (o.result.Failure? ==> o.result.error == RequestFailed(412) && o.prompts == p && o.index == x)
      && (o.result.Success? ==>
            o.result.value == prompt.(etag := None)
            && o.prompts.Get(pk, prompt.promptId) == Some(Row(prompt.promptId, FromModel(prompt, now1), p.clock))
            && forall pk2, rk2 :: (pk2, rk2) != (pk, prompt.promptId) ==> o.prompts.Get(pk2, rk2) == p.Get(pk2, rk2))
  {
    var pk := KeyFormat.PromptsPartitionKey(prompt.authorId);
    var updated := FromModel(prompt, now1);
    assert updated.partitionKey == pk && updated.rowKey == prompt.promptId;
    if p.Get(pk, prompt.promptId).value.etag == expectedETag {
      assert p.Update(pk, prompt.promptId, updated, expectedETag) == Success(p.Upsert(pk, prompt.promptId, updated));
      forall pk2, rk2 ensures p.Upsert(pk, prompt.promptId, updated).Get(pk2, rk2) ==
        if pk2 == pk && rk2 == prompt.promptId then Some(Row(prompt.promptId, updated, p.clock)) else p.Get(pk2, rk2)
      {
        GetUpsert(p, pk, prompt.promptId, updated, pk2, rk2);
      }
    } else {
      assert p.Update(pk, prompt.promptId, updated, expectedETag) == Failure(412);
    }
  }

  /** The index after the old row's key is dropped names the prompt nowhere. */
  lemma {:induction false} DropOldIndexRow(p: TableState<PromptEntity>, x: TableState<IndexEntity>,
                                           authorId: string, promptId: string) returns (x1: TableState<IndexEntity>)
    requires p.Valid() && x.Valid() && WellKeyed(x) && IndexAgrees(p, x, authorId, promptId)
    requires var row := p.Get(KeyFormat.PromptsPartitionKey(authorId), promptId);
      row.Some? && !row.value.value.isDeleted
    ensures var e := p.Get(KeyFormat.PromptsPartitionKey(authorId), promptId).value.value;
      x1 == (if IsPublic(e) then
               x.Delete(KeyFormat.PublicNewestPartitionKey(e.createdAt), KeyFormat.IndexRowKey(e.createdAt, e.promptId))
             else x)
    ensures x1.Valid() && WellKeyed(x1) && OthersKept(x, x1, promptId)
    ensures forall pk, rk :: !IndexedAt(x1, promptId, pk, rk)
  {
    var row := p.Get(KeyFormat.PromptsPartitionKey(authorId), promptId);
    var e := row.value.value;
    if IsPublic(e) {
      var pk0 := KeyFormat.PublicNewestPartitionKey(e.createdAt);
      var rk0 := KeyFormat.IndexRowKey(e.createdAt, e.promptId);
      x1 := x.Delete(pk0, rk0);
      assert ExpectedIndexKey(row) == Some((pk0, rk0));
      forall pk, rk ensures !IndexedAt(x1, promptId, pk, rk) {
        IndexedAfterDelete(x, pk0, rk0, promptId, pk, rk);
      }
      DeleteKeepsOthers(x, pk0, e.createdAt, e.promptId);
    } else {
      x1 := x;
      assert ExpectedIndexKey(row).None?;
    }
  }

  /**
   * A successful update keeps the index agreeing with the prompt's row, public or not,
   * whether or not the visibility or creation time changed, and leaves other prompts'
   * index rows untouched, provided the model's creation time is set or both clock readings
   * coincide.
   */
  lemma {:induction false} UpdateKeepsIndexConsistent(p: TableState<PromptEntity>, x: TableState<IndexEntity>,
                                     prompt: PromptModel, expectedETag: nat, now1: Instant, now2: Instant)
    requires p.Valid() && x.Valid() && WellKeyed(x)
    requires IndexAgrees(p, x, prompt.authorId, prompt.promptId)
    requires prompt.createdAt != DefaultInstant || now1 == now2
    ensures var o := UpdateOutcome(p, x, prompt, expectedETag, now1, now2);
      IndexAgrees(o.prompts, o.index, prompt.authorId, prompt.promptId) && WellKeyed(o.index)
      && OthersKept(x, o.index, prompt.promptId)
  {
    var o := UpdateOutcome(p, x, prompt, expectedETag, now1, now2);
    var pk := KeyFormat.PromptsPartitionKey(prompt.authorId);
    var row := p.Get(pk, prompt.promptId);
    if o.result.Success? {
      UpdateNotFound(p, x, prompt, expectedETag, now1, now2);
      UpdateIsConditional(p, x, prompt, expectedETag, now1, now2);
      var updated := FromModel(prompt, now1);
      var row2 := o.prompts.Get(pk, prompt.promptId);
      assert row2 == Some(Row(prompt.promptId, updated, p.clock));
      VisibilityMapper.RoundTrip(prompt.visibility);
      assert IsPublic(updated) <==> prompt.visibility == Public;
      var x1 := DropOldIndexRow(p, x, prompt.authorId, prompt.promptId);
      if prompt.visibility == Public {
        var ie := ToPublicNewestIndexEntity(prompt.(etag := None), now2);
        assert o.index == x1.Upsert(ie.partitionKey, ie.rowKey, ie);
        assert ie.createdAt == updated.createdAt;
        forall pk2, rk2 ensures IndexedAt(o.index, prompt.promptId, pk2, rk2) <==> ExpectedIndexKey(row2) == Some((pk2, rk2)) {
          IndexedAfterUpsert(x1, ie, prompt.promptId, pk2, rk2);
        }
        UpsertKeepsOthers(x1, ie);
      } else {
        assert o.index == x1;
      }
    } else {
      assert o.prompts == p && o.index == x;
    }
  }

  // ---------------------------------------------------------------------------------
  // Soft delete
  // ---------------------------------------------------------------------------------

  /**
   * Soft delete never fails: a missing row is a no-op, and an existing row (even one already
   * deleted) keeps every field but is marked deleted under a fresh tag.
   */
  lemma SoftDeleteMarks(p: TableState<PromptEntity>, x: TableState<IndexEntity>, authorId: string, promptId: string)
    requires p.Valid() && x.Valid()
    ensures var o := SoftDeleteOutcome(p, x, authorId, promptId);
      var pk := KeyFormat.PromptsPartitionKey(authorId);
      var row := p.Get(pk, promptId);
      o.result.Success?
      && (row.None? ==> o.prompts == p && o.index == x)
      && (row.Some? ==>
            o.prompts.Get(pk, promptId) == Some(Row(promptId, row.value.value.(isDeleted := true), p.clock))
            && forall pk2, rk2 :: (pk2, rk2) != (pk, promptId) ==> o.prompts.Get(pk2, rk2) == p.Get(pk2, rk2))
  {
    var pk := KeyFormat.PromptsPartitionKey(authorId);
    var row := p.Get(pk, promptId);
    if row.Some? {
      var entity := row.value.value.(isDeleted := true);
      forall pk2, rk2 ensures p.Upsert(pk, promptId, entity).Get(pk2, rk2) ==
        if pk2 == pk && rk2 == promptId then Some(Row(promptId, entity, p.clock)) else p.Get(pk2, rk2)
      {
        GetUpsert(p, pk, promptId, entity, pk2, rk2);
      }
    }
  }

  /** After a soft delete the index names the prompt nowhere and other prompts' rows are untouched. */
  lemma {:induction false} SoftDeleteKeepsIndexConsistent(p: TableState<PromptEntity>, x: TableState<IndexEntity>,
                                                          authorId: string, promptId: string)
    requires p.Valid() && x.Valid() && WellKeyed(x) && IndexAgrees(p, x, authorId, promptId)
    ensures var o := SoftDeleteOutcome(p, x, authorId, promptId);
      IndexAgrees(o.prompts, o.index, authorId, promptId) && WellKeyed(o.index) && OthersKept(x, o.index, promptId)
  {
    var o := SoftDeleteOutcome(p, x, authorId, promptId);
    var pk := KeyFormat.PromptsPartitionKey(authorId);
    var row := p.Get(pk, promptId);
    SoftDeleteMarks(p, x, authorId, promptId);
    if row.Some? {
      var e := row.value.value;
      assert e.promptId == promptId;
      if IsPublic(e) && !e.isDeleted {
        var pk0 := KeyFormat.PublicNewestPartitionKey(e.createdAt);
        var rk0 := KeyFormat.IndexRowKey(e.createdAt, e.promptId);
        assert o.index == x.Delete(pk0, rk0);
        assert ExpectedIndexKey(row) == Some((pk0, rk0));
        forall pk2, rk2 ensures !IndexedAt(o.index, promptId, pk2, rk2) {
          IndexedAfterDelete(x, pk0, rk0, promptId, pk2, rk2);
        }
        DeleteKeepsOthers(x, pk0, e.createdAt, e.promptId);
      } else if IsPublic(e) {
        var pk0 := KeyFormat.PublicNewestPartitionKey(e.createdAt);
        var rk0 := KeyFormat.IndexRowKey(e.createdAt, e.promptId);
        assert o.index == x.Delete(pk0, rk0);
        forall pk2, rk2 ensures !IndexedAt(o.index, promptId, pk2, rk2) {
          IndexedAfterDelete(x, pk0, rk0, promptId, pk2, rk2);
        }
        DeleteKeepsOthers(x, pk0, e.createdAt, e.promptId);
      } else {
        assert o.index == x;
      }
    }
  }

  /**
   * A creation time left at its default is read from the clock twice: when the readings
   * differ, the index row is not at the key the stored row's creation time gives.
   */
  lemma DefaultCreatedAtSplitsKeys(prompt: PromptModel, newId: string, now1: Instant, now2: Instant)
    requires prompt.createdAt == DefaultInstant && now1 != now2
    ensures var stored := FromModel(prompt.(promptId := newId), now1);
      ToPublicNewestIndexEntity(prompt.(promptId := newId, etag := None), now2).rowKey
        != KeyFormat.IndexRowKey(stored.createdAt, newId)
  {
    var stored := FromModel(prompt.(promptId := newId), now1);
    var ie := ToPublicNewestIndexEntity(prompt.(promptId := newId, etag := None), now2);
    if ie.rowKey == KeyFormat.IndexRowKey(stored.createdAt, newId) {
      KeyFormat.IndexRowKeyInjective(now2, newId, now1, newId);
    }
  }

  /** The store over the two tables; each method is its outcome function on the tables' states. */
  class TablePromptWriteStore {
    const prompts: Table<PromptEntity>
    const index: Table<IndexEntity>

    constructor(prompts: Table<PromptEntity>, index: Table<IndexEntity>)
      ensures this.prompts == prompts && this.index == index
    {
      this.prompts := prompts;
      this.index := index;
    }

    method Create(prompt: PromptModel, newId: string, now1: Instant, now2: Instant) returns (r: Result<PromptModel, Error>)
      requires prompts.Valid() && index.Valid()
      modifies prompts, index
      ensures prompts.Valid() && index.Valid()
      ensures var o := CreateOutcome(old(prompts.state), old(index.state), prompt, newId, now1, now2);
        r == o.result && prompts.state == o.prompts && index.state == o.index
    {
      var newPrompt := prompt.(promptId := newId);
      var entity := FromModel(newPrompt, now1);
      var failure := prompts.Add(entity.partitionKey, entity.rowKey, entity);
      if failure.Some? {
        return Failure(RequestFailed(failure.value));
      }
      var created := newPrompt.(etag := None);
      if created.visibility == Public {
        var ie := ToPublicNewestIndexEntity(created, now2);
        index.Upsert(ie.partitionKey, ie.rowKey, ie);
      }
      return Success(created);
    }

    method Update(prompt: PromptModel, expectedETag: nat, now1: Instant, now2: Instant) returns (r: Result<PromptModel, Error>)
      requires prompts.Valid() && index.Valid()
      modifies prompts, index
      ensures prompts.Valid() && index.Valid()
      ensures var o := UpdateOutcome(old(prompts.state), old(index.state), prompt, expectedETag, now1, now2);
        r == o.result && prompts.state == o.prompts && index.state == o.index
    {
      var existing := prompts.Get(KeyFormat.PromptsPartitionKey(prompt.authorId), prompt.promptId);
      if existing.None? || existing.value.value.isDeleted {
        return Failure(PromptNotFound);
      }
      var updated := FromModel(prompt, now1);
      var failure := prompts.Update(updated.partitionKey, updated.rowKey, updated, expectedETag);
      if failure.Some? {
        return Failure(RequestFailed(failure.value));
      }
      var updatedPrompt := prompt.(etag := None);
      var e := existing.value.value;
      if IsPublic(e) {
        index.Delete(KeyFormat.PublicNewestPartitionKey(e.createdAt), KeyFormat.IndexRowKey(e.createdAt, e.promptId));
      }
      if updatedPrompt.visibility == Public {
        var ie := ToPublicNewestIndexEntity(updatedPrompt, now2);
        index.Upsert(ie.partitionKey, ie.rowKey, ie);
      }
      return Success(updatedPrompt);
    }

    /** Soft delete; its conditional update uses the tag just read, so it cannot be refused. */
    method SoftDelete(authorId: string, promptId: string)
      requires prompts.Valid() && index.Valid()
      modifies prompts, index
      ensures prompts.Valid() && index.Valid()
      ensures var o := SoftDeleteOutcome(old(prompts.state), old(index.state), authorId, promptId);
        o.result.Success? && prompts.state == o.prompts && index.state == o.index
    {
      var pk := KeyFormat.PromptsPartitionKey(authorId);
      var row := prompts.Get(pk, promptId);
      if row.None? {
        return;
      }
      var entity := row.value.value.(isDeleted := true);
      var failure := prompts.Update(pk, promptId, entity, row.value.etag);
      assert failure.None?;
      if IsPublic(entity) {
        index.Delete(KeyFormat.PublicNewestPartitionKey(entity.createdAt), KeyFormat.IndexRowKey(entity.createdAt, entity.promptId));
      }
    }
  }
}
