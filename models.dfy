/**
 * Application models, table entities and the exceptions the core raises.
 * Fields are those the core reads and writes; `AuthorEmail` is an opaque pass-through.
 */
module Models {
  import opened Wrappers
  import opened Calendar

  const Int32Min: int := -0x8000_0000
  const Int32Max: int := 0x7fff_ffff

  /** A C# `int`. */
  type Int32 = x: int | Int32Min <= x <= Int32Max

  /** Two's-complement wrap-around of an unchecked C# `int` operation. */
  function Wrap32(x: int): (r: Int32)
    ensures Int32Min <= x <= Int32Max ==> r == x
    ensures (r - x) % 0x1_0000_0000 == 0
  {
    (x - Int32Min) % 0x1_0000_0000 + Int32Min
  }

  /** The `VoteValue` enum: any `int` converts to it, three values are named. */
  newtype VoteValue = x: int | -0x8000_0000 <= x <= 0x7fff_ffff

  const NoVote: VoteValue := 0
  const Dislike: VoteValue := -1
  const Like: VoteValue := 1

  /** `(VoteValue)i`: the enum conversion keeps the number. */
  function ToVoteValue(i: Int32): (v: VoteValue)
    ensures v as int == i
  {
    i as VoteValue
  }

  /** `(int)v`. */
  function FromVoteValue(v: VoteValue): (i: Int32)
    ensures i as VoteValue == v
  {
    v as int
  }

  datatype Visibility = Private | Public

  datatype PromptModel = PromptModel(
    promptId: string,
    authorId: string,
    authorEmail: Option<string>,
    title: string,
    promptText: string,
    tags: seq<string>,
    visibility: Visibility,
    createdAt: Instant,
    updatedAt: Instant,
    likes: Int32,
    dislikes: Int32,
    etag: Option<nat>)

  datatype PromptSummaryModel = PromptSummaryModel(
    promptId: string,
    authorId: string,
    authorEmail: Option<string>,
    title: string,
    tags: seq<string>,
    visibility: Visibility,
    createdAt: Instant,
    updatedAt: Instant,
    likes: Int32,
    dislikes: Int32,
    userVote: VoteValue)

  datatype VoteRequest = VoteRequest(promptId: string, authorId: string, requested: VoteValue)

  datatype VoteResult = VoteResult(newVote: VoteValue, likes: Int32, dislikes: Int32)

  datatype VoteStateModel = VoteStateModel(
    promptId: string,
    voterId: string,
    voteValue: VoteValue,
    updatedAt: Instant,
    etag: Option<nat>)

  datatype PromptAggregates = PromptAggregates(likes: Int32, dislikes: Int32)

  /** A row of the canonical prompts table. */
  datatype PromptEntity = PromptEntity(
    partitionKey: string,
    rowKey: string,
    promptId: string,
    authorId: string,
    authorEmail: Option<string>,
    title: string,
    titleNormalized: string,
    promptText: string,
    tags: string,
    visibility: string,
    createdAt: Instant,
    updatedAt: Instant,
    isDeleted: bool,
    likes: Int32,
    dislikes: Int32)

  /** A row of the public-newest index table. */
  datatype IndexEntity = IndexEntity(
    partitionKey: string,
    rowKey: string,
    promptId: string,
    authorId: string,
    authorEmail: Option<string>,
    title: string,
    titleNormalized: string,
    tags: string,
    createdAt: Instant,
    updatedAt: Instant,
    likes: Int32,
    dislikes: Int32)

  /** A row of the votes table. */
  datatype VoteEntity = VoteEntity(
    partitionKey: string,
    rowKey: string,
    promptId: string,
    voterId: string,
    voteValue: Int32,
    updatedAt: Instant)

  /** The exceptions the core raises or lets through. */
  datatype Error =
    | ArgumentNull(paramName: string)
    | Argument(message: string, paramName: string)
    | ArgumentOutOfRange(paramName: string)
    | InvalidOperation(message: string)
    | RequestFailed(status: int)

  const PromptNotFound: Error := InvalidOperation("Prompt not found.")
}
