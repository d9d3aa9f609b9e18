/**
 * Prompt reads over the canonical prompts table and the public-newest index
 * (PromptHub.Web/Infrastructure/TableStorage/Stores/TablePromptReadStore.cs).
 *
 * Store continuations are the offsets of `Tables.Query`; the public cursor is the pair
 * (bucket, continuation) itself rather than its JSON text. The clock reading is `now`.
 */
module ReadStore {
  import opened Wrappers
  import opened Calendar
  import opened Models
  import opened Tables
  import Ascii
  import KeyFormat
  import TagString
  import VisibilityMapper
  import opened EntityMapper

  const MaxBucketsToScan: nat := 24
  const IndexPageSize: nat := 500

  /** A page of summaries and the cursor for the next one, if any. */
  datatype ContinuationPage<C> = ContinuationPage(items: seq<PromptSummaryModel>, next: Option<C>)

  /** The public listing's cursor: a month bucket "yyyyMM" and the store continuation inside it. */
  datatype PublicCursor = PublicCursor(bucket: string, continuation: Option<nat>)

  // ---------------------------------------------------------------------------------
  // GetByIdForAuthorAsync
  // ---------------------------------------------------------------------------------

  /** The author's own prompt: the live row under the author's partition, as a model. */
  function ByIdForAuthor(p: TableState<PromptEntity>, authorId: string, promptId: string): (r: Option<PromptModel>)
    ensures var row := p.Get(KeyFormat.PromptsPartitionKey(authorId), promptId);
      (r.None? <==> row.None? || row.value.value.isDeleted)
      && (r.Some? ==> r.value == ToModel(row.value.value, row.value.etag))
  {
    match p.Get(KeyFormat.PromptsPartitionKey(authorId), promptId)
    case None => None
    case Some(row) => if row.value.isDeleted then None else Some(ToModel(row.value, row.etag))
  }

  // ---------------------------------------------------------------------------------
  // GetPublicByIdAsync
  // ---------------------------------------------------------------------------------

  /** The first index row naming `promptId` (`FirstOrDefault` with an ordinal comparison). */
  function FirstWithId(items: seq<IndexEntity>, promptId: string): (r: Option<IndexEntity>)
    ensures r.Some? ==> r.value in items && r.value.promptId == promptId
    ensures r.None? <==> forall i :: 0 <= i < |items| ==> items[i].promptId != promptId
    decreases |items|
  {
    if |items| == 0 then None
    else if items[0].promptId == promptId then Some(items[0])
    else
      assert forall i :: 1 <= i < |items| ==> items[i] == items[1..][i - 1];
      FirstWithId(items[1..], promptId)
  }

  /** No row before the one found names the prompt. */
  lemma {:induction false} FirstWithIdIsFirst(items: seq<IndexEntity>, promptId: string)
    requires FirstWithId(items, promptId).Some?
    ensures exists k :: (0 <= k < |items| && items[k] == FirstWithId(items, promptId).value
      && forall j :: 0 <= j < k ==> items[j].promptId != promptId)
    decreases |items|
  {
    if items[0].promptId != promptId {
      FirstWithIdIsFirst(items[1..], promptId);
      var k :| 0 <= k < |items[1..]| && items[1..][k] == FirstWithId(items[1..], promptId).value
        && forall j :: 0 <= j < k ==> items[1..][j].promptId != promptId;
      assert items[k + 1] == FirstWithId(items, promptId).value;
      assert forall j :: 1 <= j < k + 1 ==> items[j] == items[1..][j - 1];
    } else {
      assert items[0] == FirstWithId(items, promptId).value;
    }
  }

  /** Searching a concatenation searches the first part, then the second. */
  lemma {:induction false} FirstWithIdConcat(a: seq<IndexEntity>, b: seq<IndexEntity>, promptId: string)
    ensures FirstWithId(a + b, promptId) ==
      if FirstWithId(a, promptId).Some? then FirstWithId(a, promptId) else FirstWithId(b, promptId)
    decreases |a|
  {
    if |a| > 0 {
      assert (a + b)[0] == a[0];
      assert (a + b)[1..] == a[1..] + b;
      FirstWithIdConcat(a[1..], b, promptId);
    } else {
      assert a + b == b;
    }
  }

  /**
   * Paging on: when the rows before `offset` hold no match, the first match among the next
   * `n` rows is the first match up to `offset + n`, and it is the first match of all rows.
   */
  lemma FirstWithIdResume(vs: seq<IndexEntity>, offset: nat, n: nat, promptId: string)
    requires offset + n <= |vs| && FirstWithId(vs[..offset], promptId).None?
    ensures FirstWithId(vs[..offset + n], promptId) == FirstWithId(vs[offset..offset + n], promptId)
    ensures FirstWithId(vs[offset..offset + n], promptId).Some? ==>
      FirstWithId(vs, promptId) == FirstWithId(vs[offset..offset + n], promptId)
    ensures offset + n == |vs| ==> FirstWithId(vs, promptId) == FirstWithId(vs[offset..offset + n], promptId)
  {
    FirstWithIdUpTo(vs, offset, n, promptId);
    FirstWithIdOfPrefix(vs, offset + n, promptId);
  }

  /** With no match before `offset`, the first match up to `offset + n` is the first among the next `n` rows. */
  lemma FirstWithIdUpTo(vs: seq<IndexEntity>, offset: nat, n: nat, promptId: string)
    requires offset + n <= |vs| && FirstWithId(vs[..offset], promptId).None?
    ensures FirstWithId(vs[..offset + n], promptId) == FirstWithId(vs[offset..offset + n], promptId)
  {
    assert vs[..offset + n][..offset] == vs[..offset];
    assert vs[..offset + n][offset..] == vs[offset..offset + n];
    FirstWithIdAfterMiss(vs[..offset + n], offset, promptId);
  }

  /** When the first `k` rows hold no match, searching all rows is searching the rest. */
  lemma FirstWithIdAfterMiss(vs: seq<IndexEntity>, k: nat, promptId: string)
    requires k <= |vs| && FirstWithId(vs[..k], promptId).None?
    ensures FirstWithId(vs, promptId) == FirstWithId(vs[k..], promptId)
  {
    assert vs == vs[..k] + vs[k..];
    FirstWithIdConcat(vs[..k], vs[k..], promptId);
  }

  /** A match in a prefix is the first match of all rows, and the whole list is its own prefix. */
  lemma FirstWithIdOfPrefix(vs: seq<IndexEntity>, k: nat, promptId: string)
    requires k <= |vs|
    ensures FirstWithId(vs[..k], promptId).Some? ==> FirstWithId(vs, promptId) == FirstWithId(vs[..k], promptId)
    ensures k == |vs| ==> FirstWithId(vs, promptId) == FirstWithId(vs[..k], promptId)
  {
    assert vs == vs[..k] + vs[k..];
    FirstWithIdConcat(vs[..k], vs[k..], promptId);
  }

  /** The index partition of a calendar month. */
  function BucketPartition(ym: YearMonth): string
    requires ValidYearMonth(ym)
  {
    KeyFormat.PublicNewestPrefix + KeyFormat.BucketText(ym)
  }

  /** The partition of a month's bucket is the one every instant of that month is indexed under. */
  lemma BucketPartitionOfInstant(t: Instant)
    ensures BucketPartition(YearMonthOf(t)) == KeyFormat.PublicNewestPartitionKey(t)
  {
  }

  /**
   * The partitions of the buckets the lookup scans, newest first: the month of `ym0` and the
   * 23 before it; `None` where `AddMonths` would leave the calendar.
   */
  function CandidateBuckets(ym0: YearMonth): (ks: seq<Option<string>>)
    requires ValidYearMonth(ym0)
    ensures |ks| == MaxBucketsToScan
  {
    seq(MaxBucketsToScan, i requires 0 <= i < MaxBucketsToScan =>
      var ym := MonthsBefore(ym0, i);
      if ym.None? then None else Some(BucketPartition(ym.value)))
  }

  /** Bucket `i` is the partition of the month `i` months before `ym0`, and is missing exactly before year 1. */
  lemma CandidateBucketsAreMonths(ym0: YearMonth, i: nat)
    requires ValidYearMonth(ym0) && i < MaxBucketsToScan
    ensures var ks := CandidateBuckets(ym0);
      (ks[i].None? <==> ym0.year * 12 + (ym0.month - 1) - i < 12)
      && (ks[i].Some? ==> ks[i].value == BucketPartition(MonthsBefore(ym0, i).value))
  {
    MonthsBeforeIsAddMonths(ym0, i);
  }

  /** The first row of a bucket partition that names the prompt. */
  function BucketMatch(x: TableState<IndexEntity>, pk: string, promptId: string): (r: Option<IndexEntity>)
    ensures r.Some? ==> r.value.promptId == promptId
  {
    FirstWithId(Values(x.Rows(pk)), promptId)
  }

  /**
   * The scan from bucket `i` on: the first matching index row of the newest bucket that holds
   * one; a missing bucket before that is `AddMonths`' `ArgumentOutOfRangeException`.
   */
  function ScanBuckets(x: TableState<IndexEntity>, ks: seq<Option<string>>, promptId: string, i: nat): (r: Result<Option<IndexEntity>, Error>)
    ensures r.Success? && r.value.Some? ==> r.value.value.promptId == promptId
    decreases |ks| - i
  {
    if i >= |ks| then Success(None)
    else if ks[i].None? then Failure(ArgumentOutOfRange("months"))
    else
      var m := BucketMatch(x, ks[i].value, promptId);
      if m.Some? then Success(m) else ScanBuckets(x, ks, promptId, i + 1)
  }

  /** Bucket `j` exists and no row of it names the prompt. */
  ghost predicate NotInBucket(x: TableState<IndexEntity>, ks: seq<Option<string>>, promptId: string, j: nat) {
    j < |ks| && ks[j].Some? && BucketMatch(x, ks[j].value, promptId).None?
  }

  /**
   * A row the scan finds is the first row naming the prompt in the newest bucket that holds
   * one: every newer bucket exists and holds none.
   */
  lemma {:induction false} ScanBucketsFindsNewest(x: TableState<IndexEntity>, ks: seq<Option<string>>, promptId: string, i: nat)
    requires ScanBuckets(x, ks, promptId, i).Success? && ScanBuckets(x, ks, promptId, i).value.Some?
    ensures exists k :: (i <= k < |ks| && ks[k].Some?
      && BucketMatch(x, ks[k].value, promptId) == ScanBuckets(x, ks, promptId, i).value
      && forall j :: i <= j < k ==> NotInBucket(x, ks, promptId, j))
    decreases |ks| - i
  {
    var r := ScanBuckets(x, ks, promptId, i);
    if BucketMatch(x, ks[i].value, promptId).None? {
      assert NotInBucket(x, ks, promptId, i);
      assert r == ScanBuckets(x, ks, promptId, i + 1);
      ScanBucketsFindsNewest(x, ks, promptId, i + 1);
      var k :| i + 1 <= k < |ks| && ks[k].Some? && BucketMatch(x, ks[k].value, promptId) == r.value
        && forall j :: i + 1 <= j < k ==> NotInBucket(x, ks, promptId, j);
      assert forall j :: i <= j < k ==> NotInBucket(x, ks, promptId, j);
    } else {
      assert i <= i < |ks| && ks[i].Some? && BucketMatch(x, ks[i].value, promptId) == r.value;
    }
  }

  /** When the scan finds nothing, every bucket from `i` on exists and holds no row naming the prompt. */
  lemma {:induction false} ScanBucketsMissing(x: TableState<IndexEntity>, ks: seq<Option<string>>, promptId: string, i: nat)
    requires ScanBuckets(x, ks, promptId, i) == Success(None)
    ensures forall j :: i <= j < |ks| ==> NotInBucket(x, ks, promptId, j)
    decreases |ks| - i
  {
    if i < |ks| {
      assert NotInBucket(x, ks, promptId, i);
      ScanBucketsMissing(x, ks, promptId, i + 1);
    }
  }

  /** The scan fails only at a missing bucket, reached before any row is found; with every bucket present it succeeds. */
  lemma {:induction false} ScanBucketsFails(x: TableState<IndexEntity>, ks: seq<Option<string>>, promptId: string, i: nat)
    ensures var r := ScanBuckets(x, ks, promptId, i);
      r.Failure? ==> (r.error == ArgumentOutOfRange("months")
        && exists k :: (i <= k < |ks| && ks[k].None?
          && forall j :: i <= j < k ==> NotInBucket(x, ks, promptId, j)))
    ensures (forall j :: i <= j < |ks| ==> ks[j].Some?) ==> ScanBuckets(x, ks, promptId, i).Success?
    decreases |ks| - i
  {
    if i < |ks| {
      if ks[i].None? {
        assert i <= i < |ks| && ks[i].None?;
      } else if BucketMatch(x, ks[i].value, promptId).None? {
        ScanBucketsFails(x, ks, promptId, i + 1);
        var r := ScanBuckets(x, ks, promptId, i);
        if r.Failure? {
          assert NotInBucket(x, ks, promptId, i);
          var k :| i + 1 <= k < |ks| && ks[k].None? && forall j :: i + 1 <= j < k ==> NotInBucket(x, ks, promptId, j);
          assert forall j :: i <= j < k ==> NotInBucket(x, ks, promptId, j);
        }
      }
    }
  }

  /** From a month at least two years into the calendar, every bucket exists and the lookup cannot fail. */
  lemma CandidateBucketsPresent(ym0: YearMonth)
    requires ValidYearMonth(ym0) && ym0.year * 12 + (ym0.month - 1) >= 12 + MaxBucketsToScan
    ensures forall j :: 0 <= j < MaxBucketsToScan ==> CandidateBuckets(ym0)[j].Some?
  {
    forall j | 0 <= j < MaxBucketsToScan
      ensures CandidateBuckets(ym0)[j].Some?
    {
      CandidateBucketsAreMonths(ym0, j);
    }
  }

  /** The canonical row an index row leads to, if it is live and public. */
  function Resolve(p: TableState<PromptEntity>, match_: IndexEntity, promptId: string): (r: Option<PromptModel>)
    ensures var row := p.Get(KeyFormat.PromptsPartitionKey(match_.authorId), promptId);
      r.Some? <==> row.Some? && !row.value.value.isDeleted && IsPublic(row.value.value)
    ensures var row := p.Get(KeyFormat.PromptsPartitionKey(match_.authorId), promptId);
      r.Some? ==> r.value == ToModel(row.value.value, row.value.etag) && r.value.visibility == Public
  {
    match p.Get(KeyFormat.PromptsPartitionKey(match_.authorId), promptId)
    case None => None
    case Some(row) =>
      if row.value.isDeleted then None
      else
        var model := ToModel(row.value, row.etag);
        if model.visibility == Public then Some(model) else None
  }

  /** `GetPublicByIdAsync`. */
  function PublicById(p: TableState<PromptEntity>, x: TableState<IndexEntity>, now: Instant, promptId: string): Result<Option<PromptModel>, Error> {
    if Ascii.IsBlank(promptId) then Success(None)
    else match ScanBuckets(x, CandidateBuckets(YearMonthOf(now)), promptId, 0)
      case Failure(e) => Failure(e)
      case Success(None) => Success(None)
      case Success(Some(m)) => Success(Resolve(p, m, promptId))
  }

  /**
   * A blank id finds nothing; a prompt found is the live, public canonical row under the
   * author the first matching index row names.
   */
  lemma PublicByIdSound(p: TableState<PromptEntity>, x: TableState<IndexEntity>, now: Instant, promptId: string)
    ensures Ascii.IsBlank(promptId) ==> PublicById(p, x, now, promptId) == Success(None)
    ensures var r := PublicById(p, x, now, promptId);
      r.Success? && r.value.Some? ==>
        var s := ScanBuckets(x, CandidateBuckets(YearMonthOf(now)), promptId, 0);
        s.Success? && s.value.Some? && s.value.value.promptId == promptId
        && var row := p.Get(KeyFormat.PromptsPartitionKey(s.value.value.authorId), promptId);
        row.Some? && !row.value.value.isDeleted && IsPublic(row.value.value)
        && r.value.value == ToModel(row.value.value, row.value.etag)
  {
  }

  // ---------------------------------------------------------------------------------
  // ListMyPromptsAsync
  // ---------------------------------------------------------------------------------

  /** The summary of an author's own row. */
  function ToSummary(e: PromptEntity): (s: PromptSummaryModel)
    ensures s.promptId == e.promptId && s.userVote == NoVote
    ensures s.visibility == Public <==> IsPublic(e)
  {
    PromptSummaryModel(
      promptId := e.promptId,
      authorId := e.authorId,
      authorEmail := e.authorEmail,
      title := e.title,
      tags := TagString.ToTags(Some(e.tags)),
      visibility := VisibilityMapper.ToModel(Some(e.visibility)),
      createdAt := e.createdAt,
      updatedAt := e.updatedAt,
      likes := e.likes,
      dislikes := e.dislikes,
      userVote := NoVote)
  }

  /**
   * `f` applied to the live rows of a page, in page order (the loop that skips deleted rows).
   * The lemmas below hold for any `f`; the listing uses `ToSummary`.
   */
  function LiveMap<U>(items: seq<PromptEntity>, f: PromptEntity -> U): (r: seq<U>)
    ensures |r| <= |items|
    decreases |items|
  {
    if |items| == 0 then []
    else
      var last := items[|items| - 1];
      LiveMap(items[..|items| - 1], f) + (if last.isDeleted then [] else [f(last)])
  }

  /** `s` is `f` of a live row of `items`. */
  ghost predicate OfLiveRow<U>(items: seq<PromptEntity>, f: PromptEntity -> U, s: U) {
    exists i :: 0 <= i < |items| && !items[i].isDeleted && s == f(items[i])
  }

  /** Each result comes from a live row of the page. */
  lemma {:induction false} LiveMapFromLive<U>(items: seq<PromptEntity>, f: PromptEntity -> U)
    ensures forall k :: 0 <= k < |LiveMap(items, f)| ==> OfLiveRow(items, f, LiveMap(items, f)[k])
    decreases |items|
  {
    if |items| > 0 {
      var n := |items| - 1;
      var init := items[..n];
      LiveMapFromLive(init, f);
      var r := LiveMap(items, f);
      var r0 := LiveMap(init, f);
      assert r == r0 + (if items[n].isDeleted then [] else [f(items[n])]);
      forall k | 0 <= k < |r|
        ensures OfLiveRow(items, f, r[k])
      {
        if k < |r0| {
          assert OfLiveRow(init, f, r0[k]);
          var i :| 0 <= i < |init| && !init[i].isDeleted && r0[k] == f(init[i]);
          assert r[k] == r0[k] && items[i] == init[i];
          assert 0 <= i < |items| && !items[i].isDeleted && r[k] == f(items[i]);
        } else {
          assert 0 <= n < |items| && !items[n].isDeleted && r[k] == f(items[n]);
        }
      }
    }
  }

  /** Each live row of the page gives a result. */
  lemma {:induction false} LiveMapKeepsLive<U>(items: seq<PromptEntity>, f: PromptEntity -> U)
    ensures forall i :: 0 <= i < |items| && !items[i].isDeleted ==> f(items[i]) in LiveMap(items, f)
    decreases |items|
  {
    if |items| > 0 {
      var n := |items| - 1;
      var init := items[..n];
      LiveMapKeepsLive(init, f);
      var r := LiveMap(items, f);
      var r0 := LiveMap(init, f);
      assert r == r0 + (if items[n].isDeleted then [] else [f(items[n])]);
      forall i | 0 <= i < |items| && !items[i].isDeleted
        ensures f(items[i]) in r
      {
        if i < n {
          assert items[i] == init[i];
          assert f(init[i]) in r0;
        }
      }
    }
  }

  /** A page with no deleted row gives one result per row, in order. */
  lemma {:induction false} LiveMapAllLive<U>(items: seq<PromptEntity>, f: PromptEntity -> U)
    requires forall i :: 0 <= i < |items| ==> !items[i].isDeleted
    ensures |LiveMap(items, f)| == |items|
    ensures forall i :: 0 <= i < |items| ==> LiveMap(items, f)[i] == f(items[i])
    decreases |items|
  {
    if |items| > 0 {
      var n := |items| - 1;
      var init := items[..n];
      assert forall i :: 0 <= i < n ==> init[i] == items[i];
      LiveMapAllLive(init, f);
      var r := LiveMap(items, f);
      var r0 := LiveMap(init, f);
      assert !items[n].isDeleted;
      assert r == r0 + [f(items[n])];
      forall i | 0 <= i < |items|
        ensures r[i] == f(items[i])
      {
        if i < n {
          assert r[i] == r0[i];
        }
      }
    }
  }

  /** `ListMyPromptsAsync`: one store page of the author's partition, live rows only. */
  function MyPrompts(p: TableState<PromptEntity>, authorId: string, token: Option<nat>, pageSize: int): (r: ContinuationPage<nat>)
    ensures pageSize <= 0 ==> r == ContinuationPage([], None)
    ensures |r.items| <= (if pageSize <= 0 then 0 else pageSize)
  {
    Listing(p, KeyFormat.PromptsPartitionKey(authorId), token, pageSize, ToSummary)
  }

  /**
   * One store page of partition `pk` resuming at `token`: the live rows of the query page,
   * each mapped by `f`, with the query's continuation.
   */
  function Listing(p: TableState<PromptEntity>, pk: string, token: Option<nat>, pageSize: int, f: PromptEntity -> PromptSummaryModel): (r: ContinuationPage<nat>)
    ensures pageSize <= 0 ==> r == ContinuationPage([], None)
    ensures |r.items| <= (if pageSize <= 0 then 0 else pageSize)
  {
    if pageSize <= 0 then ContinuationPage([], None)
    else
      var page := p.Query(pk, pageSize, token);
      ContinuationPage(LiveMap(page.items, f), page.continuation)
  }

  /**
   * With a positive page size the listing holds the live rows among the next `pageSize` rows of
   * the partition after the start offset, and its token is the offset after them, none at the end.
   */
  lemma ListingPage(p: TableState<PromptEntity>, pk: string, token: Option<nat>, pageSize: int, f: PromptEntity -> PromptSummaryModel)
    requires 0 < pageSize
    requires StartOffset(token) <= |p.Rows(pk)|
    ensures Listing(p, pk, token, pageSize, f).items ==
      LiveMap(Values(p.Rows(pk))[StartOffset(token)..PageEnd(|p.Rows(pk)|, StartOffset(token), pageSize)], f)
    ensures Listing(p, pk, token, pageSize, f).next.None? <==> PageEnd(|p.Rows(pk)|, StartOffset(token), pageSize) == |p.Rows(pk)|
    ensures Listing(p, pk, token, pageSize, f).next.Some? ==>
      Listing(p, pk, token, pageSize, f).next.value == PageEnd(|p.Rows(pk)|, StartOffset(token), pageSize)
  {
    QueryPage(p, pk, pageSize, token);
  }

  /**
   * Resuming at `token` (the first page when there is none), the page holds the live rows among
   * the next `pageSize` rows of the author's partition, and its token is the offset after them,
   * or none at the end.
   */
  lemma {:induction false} MyPromptsPage(p: TableState<PromptEntity>, authorId: string, token: Option<nat>, pageSize: int)
    requires 0 < pageSize
    requires StartOffset(token) <= |p.Rows(KeyFormat.PromptsPartitionKey(authorId))|
    ensures MyPrompts(p, authorId, token, pageSize).items ==
      LiveMap(Values(p.Rows(KeyFormat.PromptsPartitionKey(authorId)))[StartOffset(token)..
                PageEnd(|p.Rows(KeyFormat.PromptsPartitionKey(authorId))|, StartOffset(token), pageSize)], ToSummary)
    ensures MyPrompts(p, authorId, token, pageSize).next.None? <==>
      PageEnd(|p.Rows(KeyFormat.PromptsPartitionKey(authorId))|, StartOffset(token), pageSize)
        == |p.Rows(KeyFormat.PromptsPartitionKey(authorId))|
    ensures MyPrompts(p, authorId, token, pageSize).next.Some? ==>
      MyPrompts(p, authorId, token, pageSize).next.value
        == PageEnd(|p.Rows(KeyFormat.PromptsPartitionKey(authorId))|, StartOffset(token), pageSize)
  {
    ListingPage(p, KeyFormat.PromptsPartitionKey(authorId), token, pageSize, ToSummary);
  }

  // ---------------------------------------------------------------------------------
  // ListPublicNewestAsync
  // ---------------------------------------------------------------------------------

  /** The summary of a public index row: public, not voted, with the index row's counts. */
  function PublicSummary(e: IndexEntity): (s: PromptSummaryModel)
    ensures s.visibility == Public && s.userVote == NoVote
    ensures s.promptId == e.promptId && s.likes == e.likes && s.dislikes == e.dislikes
  {
    PromptSummaryModel(
      promptId := e.promptId,
      authorId := e.authorId,
      authorEmail := e.authorEmail,
      title := e.title,
      tags := TagString.ToTags(Some(e.tags)),
      visibility := Public,
      createdAt := e.createdAt,
      updatedAt := e.updatedAt,
      likes := e.likes,
      dislikes := e.dislikes,
      userVote := NoVote)
  }

  /** The cursor a listing starts from: the given one, or the current month with no continuation. */
  function StartCursor(token: Option<PublicCursor>, now: Instant): (c: PublicCursor)
    ensures token.None? ==> c == PublicCursor(KeyFormat.BucketOf(now), None)
    ensures token.Some? ==> c == token.value
  {
    if token.None? then PublicCursor(KeyFormat.BucketOf(now), None) else token.value
  }

  /**
   * `ListPublicNewestAsync`: one store page of the cursor's bucket. A negative page size is
   * refused by the result list's capacity.
   */
  function PublicNewest(x: TableState<IndexEntity>, token: Option<PublicCursor>, pageSize: int, now: Instant): Result<ContinuationPage<PublicCursor>, Error> {
    var state := StartCursor(token, now);
    if pageSize < 0 then Failure(ArgumentOutOfRange("capacity"))
    else
      var page := x.Query(KeyFormat.PublicNewestPrefix + state.bucket, pageSize, state.continuation);
      Success(ContinuationPage(
        seq(|page.items|, i requires 0 <= i < |page.items| => PublicSummary(page.items[i])),
        if page.continuation.None? then None else Some(state.(continuation := page.continuation))))
  }

  /**
   * The listing never leaves the cursor's bucket: the next cursor keeps the bucket and exists
   * exactly when the store has more rows; every item is public, not voted, and carries its
   * index row's identity and counts; a page holds at most `pageSize` items.
   */
  lemma PublicNewestStaysInBucket(x: TableState<IndexEntity>, token: Option<PublicCursor>, pageSize: int, now: Instant)
    ensures var r := PublicNewest(x, token, pageSize, now);
      var state := StartCursor(token, now);
      (r.Failure? <==> pageSize < 0)
      && (r.Success? ==>
        var page := x.Query(KeyFormat.PublicNewestPrefix + state.bucket, pageSize, state.continuation);
        |r.value.items| == |page.items| <= pageSize
        && (r.value.next.None? <==> page.continuation.None?)
        && (r.value.next.Some? ==> r.value.next.value == PublicCursor(state.bucket, page.continuation))
        && forall i :: 0 <= i < |page.items| ==>
             r.value.items[i].visibility == Public && r.value.items[i].userVote == NoVote
             && r.value.items[i].promptId == page.items[i].promptId
             && r.value.items[i].likes == page.items[i].likes && r.value.items[i].dislikes == page.items[i].dislikes)
  {
  }

  /** Without a cursor the listing reads the partition of the current month. */
  lemma PublicNewestStartsNow(now: Instant)
    ensures KeyFormat.PublicNewestPrefix + StartCursor(None, now).bucket == KeyFormat.PublicNewestPartitionKey(now)
  {
  }

  /**
   * Following the cursors of a bucket walks its partition in row-key order: resuming at the
   * cursor's token (the start of the partition when there is none) lists the next rows and the
   * next cursor resumes right after them.
   */
  lemma {:induction false} PublicNewestWalksBucket(x: TableState<IndexEntity>, bucket: string, token: Option<nat>, pageSize: int, now: Instant)
    requires 0 < pageSize
    requires StartOffset(token) <= |x.Rows(KeyFormat.PublicNewestPrefix + bucket)|
    ensures var vs, off := Values(x.Rows(KeyFormat.PublicNewestPrefix + bucket)), StartOffset(token);
      var r := PublicNewest(x, Some(PublicCursor(bucket, token)), pageSize, now);
      var n := if off + pageSize < |vs| then pageSize else |vs| - off;
      r.Success? && |r.value.items| == n
      && (forall i :: 0 <= i < n ==> r.value.items[i] == PublicSummary(vs[off + i]))
      && r.value.next == (if off + n == |vs| then None else Some(PublicCursor(bucket, Some(off + n))))
  {
    var pk := KeyFormat.PublicNewestPrefix + bucket;
    QueryCovers(x, pk, pageSize, token);
    var page := x.Query(pk, pageSize, token);
    var vs, off := Values(x.Rows(pk)), StartOffset(token);
    assert |page.items| == (if off + pageSize < |vs| then pageSize else |vs| - off);
  }

  // ---------------------------------------------------------------------------------
  // The store
  // ---------------------------------------------------------------------------------

  /** The read store over the two tables; its methods change nothing. */
  class TablePromptReadStore {
    const prompts: Table<PromptEntity>
    const index: Table<IndexEntity>

    constructor(prompts: Table<PromptEntity>, index: Table<IndexEntity>)
      ensures this.prompts == prompts && this.index == index
    {
      this.prompts := prompts;
      this.index := index;
    }

    method GetByIdForAuthor(authorId: string, promptId: string) returns (r: Option<PromptModel>)
      ensures r == ByIdForAuthor(prompts.state, authorId, promptId)
    {
      var row := prompts.Get(KeyFormat.PromptsPartitionKey(authorId), promptId);
      if row.None? || row.value.value.isDeleted {
        return None;
      }
      return Some(ToModel(row.value.value, row.value.etag));
    }

    /** The paged scan of one bucket (the `do … while` over continuations). */
    method ScanBucket(pk: string, promptId: string) returns (m: Option<IndexEntity>)
      ensures m == FirstWithId(Values(index.state.Rows(pk)), promptId)
    {
      ghost var vs := Values(index.state.Rows(pk));
      ghost var offset: nat := 0;
      var continuation: Option<nat> := None;
      while true
        invariant offset <= |vs|
        invariant continuation == (if offset == 0 then None else Some(offset))
        invariant FirstWithId(vs[..offset], promptId).None?
        decreases |vs| - offset
      {
        var page := index.Query(pk, IndexPageSize, continuation);
        QueryPage(index.state, pk, IndexPageSize, continuation);
        var n := |page.items|;
        assert page.items == vs[offset..offset + n];
        FirstWithIdResume(vs, offset, n, promptId);
        var found := FirstWithId(page.items, promptId);
        if found.Some? {
          assert found == FirstWithId(vs, promptId);
          return found;
        }
        if page.continuation.None? {
          assert FirstWithId(vs, promptId).None?;
          return None;
        }
        offset := offset + n;
        continuation := page.continuation;
      }
    }

    method GetPublicById(promptId: string, now: Instant) returns (r: Result<Option<PromptModel>, Error>)
      ensures r == PublicById(prompts.state, index.state, now, promptId)
    {
      if Ascii.IsBlank(promptId) {
        return Success(None);
      }
      var ym0 := YearMonthOf(now);
      ghost var ks := CandidateBuckets(ym0);
      for i := 0 to MaxBucketsToScan
        invariant ScanBuckets(index.state, ks, promptId, 0) == ScanBuckets(index.state, ks, promptId, i)
      {
        var bucket := MonthsBefore(ym0, i);
        if bucket.None? {
          return Failure(ArgumentOutOfRange("months"));
        }
        assert ks[i] == Some(BucketPartition(bucket.value));
        var m := ScanBucket(BucketPartition(bucket.value), promptId);
        if m.Some? {
          var row := prompts.Get(KeyFormat.PromptsPartitionKey(m.value.authorId), promptId);
          if row.None? || row.value.value.isDeleted {
            return Success(None);
          }
          var model := ToModel(row.value.value, row.value.etag);
          return Success(if model.visibility == Public then Some(model) else None);
        }
      }
      return Success(None);
    }

    method ListMyPrompts(authorId: string, token: Option<nat>, pageSize: int) returns (r: ContinuationPage<nat>)
      ensures r == MyPrompts(prompts.state, authorId, token, pageSize)
    {
      if pageSize <= 0 {
        return ContinuationPage([], None);
      }
      var page := prompts.Query(KeyFormat.PromptsPartitionKey(authorId), pageSize, token);
      var results: seq<PromptSummaryModel> := [];
      for k := 0 to |page.items|
        invariant results == LiveMap(page.items[..k], ToSummary)
      {
        assert page.items[..k + 1][..k] == page.items[..k];
        var entity := page.items[k];
        if !entity.isDeleted {
          results := results + [ToSummary(entity)];
        }
      }
      assert page.items[..|page.items|] == page.items;
      return ContinuationPage(results, page.continuation);
    }

    method ListPublicNewest(token: Option<PublicCursor>, pageSize: int, now: Instant) returns (r: Result<ContinuationPage<PublicCursor>, Error>)
      ensures r == PublicNewest(index.state, token, pageSize, now)
    {
      var state := StartCursor(token, now);
      if pageSize < 0 {
        return Failure(ArgumentOutOfRange("capacity"));
      }
      var page := index.Query(KeyFormat.PublicNewestPrefix + state.bucket, pageSize, state.continuation);
      var models := seq(|page.items|, i requires 0 <= i < |page.items| => PublicSummary(page.items[i]));
      var next := if page.continuation.None? then None else Some(state.(continuation := page.continuation));
      return Success(ContinuationPage(models, next));
    }
  }
}
