/**
 * The vote workflow (PromptHub.Web/Application/Features/Votes/PromptVotingFeature.cs):
 * validate the request, read the voter's current vote, compute the new vote and the
 * count deltas, upsert the vote row, then apply the deltas to the prompt's aggregates.
 */
module VotingFeature {
  import opened Wrappers
  import opened Calendar
  import opened Models
  import opened Tables
  import Ascii
  import KeyFormat
  import VoteStore
  import AggregateStore

  /** Voting again for what is already recorded withdraws the vote; anything else becomes the vote. */
  function ComputeNewVote(current: VoteValue, requested: VoteValue): (v: VoteValue)
    ensures current == requested ==> v == NoVote
    ensures current != requested ==> v == requested
  {
    if current == requested then NoVote else requested
  }

  /** 1 when `b` holds, else 0. */
  function Indicator(b: bool): int {
    if b then 1 else 0
  }

  /** The change in the like and dislike counts when a voter's vote goes from `current` to `next`. */
  function ComputeAggregateDelta(current: VoteValue, next: VoteValue): (d: (Int32, Int32))
    ensures d.0 == Indicator(next == Like) - Indicator(current == Like)
    ensures d.1 == Indicator(next == Dislike) - Indicator(current == Dislike)
    ensures -1 <= d.0 <= 1 && -1 <= d.1 <= 1
  {
    var (withdrawLikes, withdrawDislikes) :=
      if current == Like then (-1, 0) else if current == Dislike then (0, -1) else (0, 0);
    if next == Like then (withdrawLikes + 1, withdrawDislikes)
    else if next == Dislike then (withdrawLikes, withdrawDislikes + 1)
    else (withdrawLikes, withdrawDislikes)
  }

  /** The six (existing, requested) rows of the transition table: new vote and both deltas. */
  lemma TransitionTable()
    ensures ComputeNewVote(NoVote, Like) == Like && ComputeAggregateDelta(NoVote, Like) == (1, 0)
    ensures ComputeNewVote(Like, Like) == NoVote && ComputeAggregateDelta(Like, NoVote) == (-1, 0)
    ensures ComputeNewVote(NoVote, Dislike) == Dislike && ComputeAggregateDelta(NoVote, Dislike) == (0, 1)
    ensures ComputeNewVote(Dislike, Dislike) == NoVote && ComputeAggregateDelta(Dislike, NoVote) == (0, -1)
    ensures ComputeNewVote(Like, Dislike) == Dislike && ComputeAggregateDelta(Like, Dislike) == (-1, 1)
    ensures ComputeNewVote(Dislike, Like) == Like && ComputeAggregateDelta(Dislike, Like) == (1, -1)
  {
  }

  /** A like or dislike request always leaves one of the three named votes. */
  lemma NewVoteIsNamed(current: VoteValue, requested: VoteValue)
    requires requested == Like || requested == Dislike
    ensures var v := ComputeNewVote(current, requested);
      v == NoVote || v == Like || v == Dislike
  {
  }

  /** Deltas compose: going from a to b and then from b to c changes the counts as a to c does. */
  lemma DeltasCompose(a: VoteValue, b: VoteValue, c: VoteValue)
    ensures ComputeAggregateDelta(a, b).0 + ComputeAggregateDelta(b, c).0 == ComputeAggregateDelta(a, c).0
    ensures ComputeAggregateDelta(a, b).1 + ComputeAggregateDelta(b, c).1 == ComputeAggregateDelta(a, c).1
  {
  }

  /**
   * Toggle: the same like or dislike request twice from no vote records the vote and then
   * withdraws it, and the two deltas cancel.
   */
  lemma {:induction false} ToggleCancels(requested: VoteValue)
    requires requested == Like || requested == Dislike
    ensures var v1 := ComputeNewVote(NoVote, requested);
      var v2 := ComputeNewVote(v1, requested);
      v1 == requested && v2 == NoVote
      && ComputeAggregateDelta(NoVote, v1).0 + ComputeAggregateDelta(v1, v2).0 == 0
      && ComputeAggregateDelta(NoVote, v1).1 + ComputeAggregateDelta(v1, v2).1 == 0
  {
    DeltasCompose(NoVote, requested, NoVote);
  }

  /**
   * The argument checks, in the source's order; `None` when the request may proceed. A null
   * request is `None` here; a null id is blank.
   */
  function Validate(request: Option<VoteRequest>, voterId: string): (r: Option<Error>)
    ensures r.None? <==>
      request.Some? && !Ascii.IsBlank(request.value.promptId) && !Ascii.IsBlank(request.value.authorId)
      && !Ascii.IsBlank(voterId) && (request.value.requested == Like || request.value.requested == Dislike)
    ensures request.None? ==> r == Some(ArgumentNull("request"))
    ensures r.Some? ==> r.value.ArgumentNull? || r.value.Argument?
    ensures r.Some? ==> (r.value.paramName == "voterId" <==>
      request.Some? && !Ascii.IsBlank(request.value.promptId) && !Ascii.IsBlank(request.value.authorId)
      && Ascii.IsBlank(voterId))
  {
    if request.None? then Some(ArgumentNull("request"))
    else if Ascii.IsBlank(request.value.promptId) then Some(Argument("PromptId is required.", "request"))
    else if Ascii.IsBlank(request.value.authorId) then Some(Argument("AuthorId is required.", "request"))
    else if Ascii.IsBlank(voterId) then Some(Argument("VoterId is required.", "voterId"))
    else if !(request.value.requested == Like || request.value.requested == Dislike) then
      Some(Argument("Requested vote must be Like or Dislike.", "request"))
    else None
  }

  /** The voter's current vote: an absent row counts as no vote. */
  function CurrentVote(v: TableState<VoteEntity>, promptId: string, voterId: string): (c: VoteValue)
    ensures VoteStore.VoteOf(v, promptId, voterId).None? ==> c == NoVote
    ensures VoteStore.VoteOf(v, promptId, voterId).Some? ==> c == VoteStore.VoteOf(v, promptId, voterId).value.voteValue
  {
    match VoteStore.VoteOf(v, promptId, voterId)
    case None => NoVote
    case Some(state) => state.voteValue
  }

  /** The result of a call and the states of the three tables after it. */
  datatype VoteOutcome = VoteOutcome(
    result: Result<VoteResult, Error>,
    votes: TableState<VoteEntity>,
    prompts: TableState<PromptEntity>,
    index: TableState<IndexEntity>)

  /**
   * `VoteAsync` on table states. `upsertFault` is the failure of the vote upsert, if any;
   * `attempts` are the environment of the aggregate store's retry loop.
   */
  function VoteOutcomeOf(v: TableState<VoteEntity>, p: TableState<PromptEntity>, x: TableState<IndexEntity>,
                         request: Option<VoteRequest>, voterId: string, now: Instant,
                         upsertFault: Option<Error>, attempts: seq<AggregateStore.Attempt>): (o: VoteOutcome)
    requires v.Valid() && p.Valid() && x.Valid() && |attempts| == AggregateStore.MaxAttempts
    ensures o.votes.Valid() && o.prompts.Valid() && o.index.Valid()
  {
    match Validate(request, voterId)
    case Some(e) => VoteOutcome(Failure(e), v, p, x)
    case None =>
      var req := request.value;
      var current := CurrentVote(v, req.promptId, voterId);
      var newVote := ComputeNewVote(current, req.requested);
      var (dl, dd) := ComputeAggregateDelta(current, newVote);
      if upsertFault.Some? then VoteOutcome(Failure(upsertFault.value), v, p, x)
      else
        var v1 := v.Upsert(KeyFormat.PromptVotesPartitionKey(req.promptId), KeyFormat.PromptVotesRowKey(voterId),
          VoteStore.VoteRow(req.promptId, voterId, newVote, now));
        var a := AggregateStore.DeltaOutcome(p, x, req.authorId, req.promptId, dl, dd, attempts);
        match a.result
        case Failure(e) => VoteOutcome(Failure(e), v1, a.prompts, a.index)
        case Success(counts) => VoteOutcome(Success(VoteResult(newVote, counts.likes, counts.dislikes)), v1, a.prompts, a.index)
  }

  /** An invalid request fails with its argument error before any table is touched. */
  lemma InvalidTouchesNothing(v: TableState<VoteEntity>, p: TableState<PromptEntity>, x: TableState<IndexEntity>,
                              request: Option<VoteRequest>, voterId: string, now: Instant,
                              upsertFault: Option<Error>, attempts: seq<AggregateStore.Attempt>)
    requires v.Valid() && p.Valid() && x.Valid() && |attempts| == AggregateStore.MaxAttempts
    requires Validate(request, voterId).Some?
    ensures VoteOutcomeOf(v, p, x, request, voterId, now, upsertFault, attempts)
      == VoteOutcome(Failure(Validate(request, voterId).value), v, p, x)
  {
  }

  /** A failed vote upsert propagates, and the aggregate store is never called: nothing changes. */
  lemma UpsertFaultSkipsAggregate(v: TableState<VoteEntity>, p: TableState<PromptEntity>, x: TableState<IndexEntity>,
                                  request: Option<VoteRequest>, voterId: string, now: Instant,
                                  upsertFault: Option<Error>, attempts: seq<AggregateStore.Attempt>)
    requires v.Valid() && p.Valid() && x.Valid() && |attempts| == AggregateStore.MaxAttempts
    requires Validate(request, voterId).None? && upsertFault.Some?
    ensures VoteOutcomeOf(v, p, x, request, voterId, now, upsertFault, attempts)
      == VoteOutcome(Failure(upsertFault.value), v, p, x)
  {
  }

  /**
   * A valid request whose upsert succeeds: the vote row now holds the new vote (whatever the
   * aggregate store does next), the aggregate store receives the request's author and prompt
   * and the deltas of the transition, and its counts (or its error) are the result.
   */
  lemma {:induction false} ValidVoteApplies(v: TableState<VoteEntity>, p: TableState<PromptEntity>, x: TableState<IndexEntity>,
                                            request: Option<VoteRequest>, voterId: string, now: Instant,
                                            attempts: seq<AggregateStore.Attempt>)
    requires v.Valid() && p.Valid() && x.Valid() && |attempts| == AggregateStore.MaxAttempts
    requires Validate(request, voterId).None?
    ensures var req := request.value;
      var o := VoteOutcomeOf(v, p, x, request, voterId, now, None, attempts);
      var current := CurrentVote(v, req.promptId, voterId);
      var newVote := ComputeNewVote(current, req.requested);
      var d := ComputeAggregateDelta(current, newVote);
      var a := AggregateStore.DeltaOutcome(p, x, req.authorId, req.promptId, d.0, d.1, attempts);
      VoteStore.VoteOf(o.votes, req.promptId, voterId) == Some(VoteStateModel(req.promptId, voterId, newVote, now, Some(v.clock)))
      && o.prompts == a.prompts && o.index == a.index
      && (a.result.Failure? ==> o.result == Failure(a.result.error))
      && (a.result.Success? ==> o.result == Success(VoteResult(newVote, a.result.value.likes, a.result.value.dislikes)))
  {
    var req := request.value;
    var current := CurrentVote(v, req.promptId, voterId);
    var newVote := ComputeNewVote(current, req.requested);
    VoteStore.GetAfterUpsert(v, req.promptId, voterId, newVote, now);
  }

  /** The voting feature over the vote store and the aggregate store. */
  class PromptVotingFeature {
    const voteStore: VoteStore.TableVoteStore
    const aggregateStore: AggregateStore.TablePromptVoteAggregateStore

    constructor (voteStore: VoteStore.TableVoteStore, aggregateStore: AggregateStore.TablePromptVoteAggregateStore)
      ensures this.voteStore == voteStore && this.aggregateStore == aggregateStore
    {
      this.voteStore := voteStore;
      this.aggregateStore := aggregateStore;
    }

    /** `VoteAsync`: the argument checks, then the vote read, the upsert and the aggregate call, in that order. */
    method Vote(request: Option<VoteRequest>, voterId: string, now: Instant,
                upsertFault: Option<Error>, attempts: seq<AggregateStore.Attempt>)
      returns (r: Result<VoteResult, Error>)
      requires voteStore.table.Valid() && aggregateStore.prompts.Valid() && aggregateStore.index.Valid()
      requires |attempts| == AggregateStore.MaxAttempts
      modifies voteStore.table, aggregateStore.prompts, aggregateStore.index
      ensures voteStore.table.Valid() && aggregateStore.prompts.Valid() && aggregateStore.index.Valid()
      ensures var o := VoteOutcomeOf(old(voteStore.table.state), old(aggregateStore.prompts.state),
          old(aggregateStore.index.state), request, voterId, now, upsertFault, attempts);
        r == o.result && voteStore.table.state == o.votes
        && aggregateStore.prompts.state == o.prompts && aggregateStore.index.state == o.index
    {
      if request.None? {
        return Failure(ArgumentNull("request"));
      }
      var req := request.value;
      if Ascii.IsBlank(req.promptId) {
        return Failure(Argument("PromptId is required.", "request"));
      }
      if Ascii.IsBlank(req.authorId) {
        return Failure(Argument("AuthorId is required.", "request"));
      }
      if Ascii.IsBlank(voterId) {
        return Failure(Argument("VoterId is required.", "voterId"));
      }
      if !(req.requested == Like || req.requested == Dislike) {
        return Failure(Argument("Requested vote must be Like or Dislike.", "request"));
      }
      var existing := voteStore.GetVote(req.promptId, voterId);
      var current := if existing.Some? then existing.value.voteValue else NoVote;
      var newVote := ComputeNewVote(current, req.requested);
      var (dl, dd) := ComputeAggregateDelta(current, newVote);
      var upserted := voteStore.UpsertVote(req.promptId, voterId, newVote, now, upsertFault);
      if upserted.Failure? {
        return Failure(upserted.error);
      }
      var aggregates := aggregateStore.ApplyVoteDelta(req.authorId, req.promptId, dl, dd, attempts);
      if aggregates.Failure? {
        return Failure(aggregates.error);
      }
      return Success(VoteResult(newVote, aggregates.value.likes, aggregates.value.dislikes));
    }
  }
}
