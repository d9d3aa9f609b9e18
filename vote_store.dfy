/**
 * One vote row per (prompt, voter)
 * (PromptHub.Web/Infrastructure/TableStorage/Stores/TableVoteStore.cs).
 */
module VoteStore {
  import opened Wrappers
  import opened Calendar
  import opened Models
  import opened Tables
  import Ascii
  import KeyFormat

  /** The stored row for a vote. */
  function VoteRow(promptId: string, voterId: string, value: VoteValue, now: Instant): (e: VoteEntity)
    ensures e.partitionKey == KeyFormat.PromptVotesPartitionKey(promptId)
    ensures e.rowKey == KeyFormat.PromptVotesRowKey(voterId)
    ensures e.promptId == promptId && e.voterId == voterId && e.updatedAt == now
    ensures ToVoteValue(e.voteValue) == value
  {
    VoteEntity(
      KeyFormat.PromptVotesPartitionKey(promptId), KeyFormat.PromptVotesRowKey(voterId),
      promptId, voterId, FromVoteValue(value), now)
  }

  /** What `GetVoteAsync` returns for the votes table in state `s`. */
  function VoteOf(s: TableState<VoteEntity>, promptId: string, voterId: string): (r: Option<VoteStateModel>)
    ensures Ascii.IsBlank(promptId) || Ascii.IsBlank(voterId) ==> r.None?
    ensures r.Some? <==> (!Ascii.IsBlank(promptId) && !Ascii.IsBlank(voterId) &&
      s.Get(KeyFormat.PromptVotesPartitionKey(promptId), KeyFormat.PromptVotesRowKey(voterId)).Some?)
    ensures r.Some? ==>
      var row := s.Get(KeyFormat.PromptVotesPartitionKey(promptId), KeyFormat.PromptVotesRowKey(voterId)).value;
      r.value == VoteStateModel(row.value.promptId, row.value.voterId, ToVoteValue(row.value.voteValue),
        row.value.updatedAt, Some(row.etag))
  {
    if Ascii.IsBlank(promptId) || Ascii.IsBlank(voterId) then None
    else
      match s.Get(KeyFormat.PromptVotesPartitionKey(promptId), KeyFormat.PromptVotesRowKey(voterId))
      case None => None
      case Some(row) =>
        Some(VoteStateModel(row.value.promptId, row.value.voterId, ToVoteValue(row.value.voteValue),
          row.value.updatedAt, Some(row.etag)))
  }

  /** Reading a vote right after upserting it returns the vote that was written. */
  lemma GetAfterUpsert(s: TableState<VoteEntity>, promptId: string, voterId: string, value: VoteValue, now: Instant)
    requires s.Valid()
    requires !Ascii.IsBlank(promptId) && !Ascii.IsBlank(voterId)
    ensures var pk, rk := KeyFormat.PromptVotesPartitionKey(promptId), KeyFormat.PromptVotesRowKey(voterId);
      VoteOf(s.Upsert(pk, rk, VoteRow(promptId, voterId, value, now)), promptId, voterId)
        == Some(VoteStateModel(promptId, voterId, value, now, Some(s.clock)))
  {
    var pk, rk := KeyFormat.PromptVotesPartitionKey(promptId), KeyFormat.PromptVotesRowKey(voterId);
    GetUpsert(s, pk, rk, VoteRow(promptId, voterId, value, now), pk, rk);
  }

  /** Upserting one voter's vote leaves every other (prompt, voter) vote as it was. */
  lemma UpsertLeavesOthers(s: TableState<VoteEntity>, promptId: string, voterId: string, value: VoteValue, now: Instant,
                           otherPrompt: string, otherVoter: string)
    requires s.Valid()
    requires otherPrompt != promptId || otherVoter != voterId
    ensures var pk, rk := KeyFormat.PromptVotesPartitionKey(promptId), KeyFormat.PromptVotesRowKey(voterId);
      VoteOf(s.Upsert(pk, rk, VoteRow(promptId, voterId, value, now)), otherPrompt, otherVoter)
        == VoteOf(s, otherPrompt, otherVoter)
  {
    var pk, rk := KeyFormat.PromptVotesPartitionKey(promptId), KeyFormat.PromptVotesRowKey(voterId);
    KeyFormat.IdKeysInjective(promptId, otherPrompt);
    KeyFormat.IdKeysInjective(voterId, otherVoter);
    GetUpsert(s, pk, rk, VoteRow(promptId, voterId, value, now),
      KeyFormat.PromptVotesPartitionKey(otherPrompt), KeyFormat.PromptVotesRowKey(otherVoter));
  }

  /** The vote store over its table. */
  class TableVoteStore {
    const table: Table<VoteEntity>

    constructor (table: Table<VoteEntity>)
      ensures this.table == table
    {
      this.table := table;
    }

    /** `GetVoteAsync`: blank ids short-circuit to null; a missing row is null. */
    method GetVote(promptId: string, voterId: string) returns (r: Option<VoteStateModel>)
      ensures r == VoteOf(table.state, promptId, voterId)
    {
      if Ascii.IsBlank(promptId) || Ascii.IsBlank(voterId) {
        return None;
      }
      var row := table.Get(KeyFormat.PromptVotesPartitionKey(promptId), KeyFormat.PromptVotesRowKey(voterId));
      if row.None? {
        return None;
      }
      var e := row.value.value;
      r := Some(VoteStateModel(e.promptId, e.voterId, ToVoteValue(e.voteValue), e.updatedAt, Some(row.value.etag)));
    }

    /**
     * `UpsertVoteAsync`: replaces the voter's row and echoes the vote; `fault` is the
     * failure of the table call, which leaves the table unchanged.
     */
    method UpsertVote(promptId: string, voterId: string, value: VoteValue, now: Instant, fault: Option<Error>)
      returns (r: Result<VoteStateModel, Error>)
      requires table.Valid()
      modifies table
      ensures table.Valid()
      ensures fault.Some? ==> r == Failure(fault.value) && table.state == old(table.state)
      ensures fault.None? ==>
        && r == Success(VoteStateModel(promptId, voterId, value, now, None))
        && table.state == old(table.state).Upsert(KeyFormat.PromptVotesPartitionKey(promptId),
             KeyFormat.PromptVotesRowKey(voterId), VoteRow(promptId, voterId, value, now))
    {
      var entity := VoteRow(promptId, voterId, value, now);
      if fault.Some? {
        return Failure(fault.value);
      }
      table.Upsert(entity.partitionKey, entity.rowKey, entity);
      r := Success(VoteStateModel(promptId, voterId, value, now, None));
    }
  }
}
