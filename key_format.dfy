/**
 * Partition and row keys of the table-storage layout
 * (PromptHub.Web/Infrastructure/TableStorage/Mapping/KeyFormat.cs).
 */
module KeyFormat {
  import opened Calendar
  import opened NumberFormat
  import LexOrder
  import Ascii

  /** Partition of the canonical prompts table holding one author's prompts. */
  function PromptsPartitionKey(authorId: string): string {
    "u|" + authorId
  }

  /** Partition of the votes table holding the votes on one prompt. */
  function PromptVotesPartitionKey(promptId: string): string {
    "p|" + promptId
  }

  /** Row of the votes table holding one voter's vote. */
  function PromptVotesRowKey(voterId: string): string {
    "u|" + voterId
  }

  /** Partition of the (unused) tag index, keyed by the normalized tag. */
  function TagIndexPartitionKey(tag: string): string {
    "t|" + Ascii.ToLower(Ascii.Trim(tag))
  }

  /** The single partition of the (unused) tag catalog. */
  function TagCatalogPartitionKey(): string {
    "tagcatalog"
  }

  const PublicNewestPrefix: string := "pub|newest|"

  /** The month bucket "yyyyMM" of a calendar month. */
  function BucketText(ym: YearMonth): string
    requires ValidYearMonth(ym)
  {
    Decimal(ym.year, 4) + Decimal(ym.month, 2)
  }

  /** The month bucket "yyyyMM" of an instant. */
  function BucketOf(t: Instant): string {
    BucketText(YearMonthOf(t))
  }

  /** Partition of the public-newest index for prompts created in the month of `createdAt`. */
  function PublicNewestPartitionKey(createdAt: Instant): string {
    PublicNewestPrefix + BucketOf(createdAt)
  }

  /**
   * The partition key as KeyFormat.cs:47 builds it: the interpolation formats "yyyyMM" in
   * the server's current culture. A culture is modelled by how many years its calendar
   * counts ahead of the Gregorian one (543 for the Thai Buddhist calendar of th-TH); the
   * invariant culture counts none.
   */
  function PublicNewestPartitionKeyInCulture(createdAt: Instant, yearOffset: nat): (k: string)
    ensures yearOffset == 0 ==> k == PublicNewestPartitionKey(createdAt)
  {
    var ym := YearMonthOf(createdAt);
    PublicNewestPrefix + Decimal(ym.year + yearOffset, 4) + Decimal(ym.month, 2)
  }

  const ThaiBuddhistYearOffset: nat := 543

  /** The 19-digit, zero-padded count of ticks from `createdAt` to the largest instant. */
  function CreatedAtTicksDesc(createdAt: Instant): string {
    Decimal(MaxTicks - createdAt, 19)
  }

  /** Row key of the public-newest index: descending creation ticks, a bar, the prompt id. */
  function IndexRowKey(createdAt: Instant, promptId: string): string {
    CreatedAtTicksDesc(createdAt) + "|" + promptId
  }

  lemma MaxTicksFits()
    ensures MaxTicks < Pow10(19)
  {
    assert Pow10(4) == 10000;
    assert Pow10(8) == 100000000;
    assert Pow10(12) == 1000000000000;
    assert Pow10(16) == 10000000000000000;
    assert Pow10(19) == 10000000000000000000;
  }

  /** The descending key is exactly nineteen decimal digits. */
  lemma {:induction false} CreatedAtTicksDescShape(t: Instant)
    ensures CreatedAtTicksDesc(t) == FixedDigits(MaxTicks - t, 19)
    ensures |CreatedAtTicksDesc(t)| == 19
    ensures forall i :: 0 <= i < 19 ==> IsDigit(CreatedAtTicksDesc(t)[i])
  {
    MaxTicksFits();
    DecimalIsFixed(MaxTicks - t, 19);
  }

  /** A later instant has an ordinally smaller descending key: ascending key order is newest first. */
  lemma {:induction false} CreatedAtTicksDescNewerFirst(earlier: Instant, later: Instant)
    requires earlier < later
    ensures LexOrder.Less(CreatedAtTicksDesc(later), CreatedAtTicksDesc(earlier))
  {
    CreatedAtTicksDescShape(earlier);
    CreatedAtTicksDescShape(later);
    MaxTicksFits();
    FixedDigitsOrdered(MaxTicks - later, MaxTicks - earlier, 19);
  }

  /** Distinct instants have distinct descending keys. */
  lemma {:induction false} CreatedAtTicksDescInjective(a: Instant, b: Instant)
    requires CreatedAtTicksDesc(a) == CreatedAtTicksDesc(b)
    ensures a == b
  {
    CreatedAtTicksDescShape(a);
    CreatedAtTicksDescShape(b);
    MaxTicksFits();
    FixedDigitsInjective(MaxTicks - a, MaxTicks - b, 19);
  }

  /** Index row keys order prompts newest first, whatever their ids. */
  lemma {:induction false} IndexRowKeyNewerFirst(earlier: Instant, later: Instant, a: string, b: string)
    requires earlier < later
    ensures LexOrder.Less(IndexRowKey(later, b), IndexRowKey(earlier, a))
  {
    CreatedAtTicksDescNewerFirst(earlier, later);
    CreatedAtTicksDescShape(earlier);
    CreatedAtTicksDescShape(later);
    LexOrder.PrefixDecides(CreatedAtTicksDesc(later), CreatedAtTicksDesc(earlier), "|" + b, "|" + a);
    assert IndexRowKey(later, b) == CreatedAtTicksDesc(later) + ("|" + b);
    assert IndexRowKey(earlier, a) == CreatedAtTicksDesc(earlier) + ("|" + a);
  }

  /** An index row key determines both the creation instant and the prompt id. */
  lemma {:induction false} IndexRowKeyInjective(t1: Instant, id1: string, t2: Instant, id2: string)
    requires IndexRowKey(t1, id1) == IndexRowKey(t2, id2)
    ensures t1 == t2 && id1 == id2
  {
    CreatedAtTicksDescShape(t1);
    CreatedAtTicksDescShape(t2);
    var k1, k2 := IndexRowKey(t1, id1), IndexRowKey(t2, id2);
    assert k1[..19] == CreatedAtTicksDesc(t1);
    assert k2[..19] == CreatedAtTicksDesc(t2);
    CreatedAtTicksDescInjective(t1, t2);
    assert k1[20..] == id1 && k2[20..] == id2;
  }

  /** Author, prompt and voter keys are injective in the id they carry. */
  lemma {:induction false} IdKeysInjective(a: string, b: string)
    ensures PromptsPartitionKey(a) == PromptsPartitionKey(b) ==> a == b
    ensures PromptVotesPartitionKey(a) == PromptVotesPartitionKey(b) ==> a == b
    ensures PromptVotesRowKey(a) == PromptVotesRowKey(b) ==> a == b
  {
    assert PromptsPartitionKey(a)[2..] == a && PromptsPartitionKey(b)[2..] == b;
    assert PromptVotesPartitionKey(a)[2..] == a && PromptVotesPartitionKey(b)[2..] == b;
  }

  /** A month bucket is six digits, "yyyy" then "MM". */
  lemma {:induction false} BucketTextShape(ym: YearMonth)
    requires ValidYearMonth(ym)
    ensures BucketText(ym) == FixedDigits(ym.year, 4) + FixedDigits(ym.month, 2)
    ensures |BucketText(ym)| == 6
  {
    DecimalIsFixed(ym.year, 4);
    DecimalIsFixed(ym.month, 2);
  }

  /** Distinct months have distinct buckets. */
  lemma {:induction false} BucketTextInjective(a: YearMonth, b: YearMonth)
    requires ValidYearMonth(a) && ValidYearMonth(b)
    requires BucketText(a) == BucketText(b)
    ensures a == b
  {
    BucketTextShape(a);
    BucketTextShape(b);
    var s := BucketText(a);
    assert s[..4] == FixedDigits(a.year, 4) == FixedDigits(b.year, 4);
    assert s[4..] == FixedDigits(a.month, 2) == FixedDigits(b.month, 2);
    FixedDigitsInjective(a.year, b.year, 4);
    FixedDigitsInjective(a.month, b.month, 2);
  }

  /** Bucket text order is calendar order. */
  lemma {:induction false} BucketTextOrdered(a: YearMonth, b: YearMonth)
    requires ValidYearMonth(a) && ValidYearMonth(b)
    requires a.year < b.year || (a.year == b.year && a.month < b.month)
    ensures LexOrder.Less(BucketText(a), BucketText(b))
  {
    BucketTextShape(a);
    BucketTextShape(b);
    var ya, yb := FixedDigits(a.year, 4), FixedDigits(b.year, 4);
    var ma, mb := FixedDigits(a.month, 2), FixedDigits(b.month, 2);
    if a.year < b.year {
      FixedDigitsOrdered(a.year, b.year, 4);
      LexOrder.PrefixDecides(ya, yb, ma, mb);
    } else {
      FixedDigitsOrdered(a.month, b.month, 2);
      LexOrder.CommonPrefix(ya, ma, mb);
    }
  }

  /** Tag index keys ignore surrounding white space and letter case. */
  lemma {:induction false} TagIndexKeyNormalizes(tag: string)
    ensures TagIndexPartitionKey(Ascii.ToLower(Ascii.Trim(tag))) == TagIndexPartitionKey(tag)
  {
    Ascii.NormalizeIdempotent(tag);
  }

  /** Two instants share a public-newest partition exactly when they fall in the same calendar month. */
  lemma {:induction false} PublicNewestSameMonth(a: Instant, b: Instant)
    ensures PublicNewestPartitionKey(a) == PublicNewestPartitionKey(b) <==> YearMonthOf(a) == YearMonthOf(b)
  {
    if PublicNewestPartitionKey(a) == PublicNewestPartitionKey(b) {
      var n := |PublicNewestPrefix|;
      assert PublicNewestPartitionKey(a)[n..] == BucketOf(a);
      assert PublicNewestPartitionKey(b)[n..] == BucketOf(b);
      BucketTextInjective(YearMonthOf(a), YearMonthOf(b));
    }
  }

  /**
   * Keys of different families never coincide: an author partition, a prompt-votes partition,
   * a tag index partition, the tag catalog and a public-newest partition are all distinct.
   */
  lemma {:induction false} KeyFamiliesDistinct(authorId: string, promptId: string, tag: string, t: Instant)
    ensures PromptsPartitionKey(authorId) != PromptVotesPartitionKey(promptId)
    ensures PromptsPartitionKey(authorId) != TagIndexPartitionKey(tag)
    ensures PromptsPartitionKey(authorId) != TagCatalogPartitionKey()
    ensures PromptsPartitionKey(authorId) != PublicNewestPartitionKey(t)
    ensures PromptVotesPartitionKey(promptId) != TagIndexPartitionKey(tag)
    ensures PromptVotesPartitionKey(promptId) != TagCatalogPartitionKey()
    ensures PromptVotesPartitionKey(promptId) != PublicNewestPartitionKey(t)
    ensures TagIndexPartitionKey(tag) != TagCatalogPartitionKey()
    ensures TagIndexPartitionKey(tag) != PublicNewestPartitionKey(t)
    ensures TagCatalogPartitionKey() != PublicNewestPartitionKey(t)
  {
    var u, p, g, c, n := PromptsPartitionKey(authorId), PromptVotesPartitionKey(promptId),
      TagIndexPartitionKey(tag), TagCatalogPartitionKey(), PublicNewestPartitionKey(t);
    assert u[0] == 'u' && p[0] == 'p' && g[0] == 't' && c[0] == 't' && n[0] == 'p';
    assert p[1] == '|' && n[1] == 'u' && g[1] == '|' && c[1] == 'a';
  }

  /**
   * Under any culture whose years differ from the Gregorian ones, a prompt created at `now`
   * is indexed under a partition other than the one the first public listing reads at
   * `now`, which the listing always formats in the invariant culture.
   */
  lemma {:induction false} CultureKeyMissesInvariantBucket(now: Instant, yearOffset: nat)
    requires yearOffset > 0
    ensures PublicNewestPartitionKeyInCulture(now, yearOffset) != PublicNewestPrefix + BucketOf(now)
  {
    var ym := YearMonthOf(now);
    var y := ym.year + yearOffset;
    var culture := Decimal(y, 4) + Decimal(ym.month, 2);
    assert Pow10(2) == 100 && Pow10(4) == 10000;
    DecimalIsFixed(ym.year, 4);
    DecimalIsFixed(ym.month, 2);
    if y < 10000 {
      DecimalIsFixed(y, 4);
      if culture == BucketOf(now) {
        assert culture[..4] == FixedDigits(y, 4);
        assert BucketOf(now)[..4] == FixedDigits(ym.year, 4);
        FixedDigitsInjective(y, ym.year, 4);
      }
    } else {
      DigitCountAbove(y, 4);
      assert |culture| > 6;
    }
    assert culture != BucketOf(now);
    var n := |PublicNewestPrefix|;
    assert PublicNewestPartitionKeyInCulture(now, yearOffset)[n..] == culture;
    assert (PublicNewestPrefix + BucketOf(now))[n..] == BucketOf(now);
  }

  /** October 2025 on a th-TH server: the prompt goes to bucket 256810, the listing reads 202510. */
  lemma {:induction false} ThaiOctober2025()
    ensures PublicNewestPartitionKeyInCulture(638948736000000000, ThaiBuddhistYearOffset) == "pub|newest|256810"
    ensures PublicNewestPrefix + BucketOf(638948736000000000) == "pub|newest|202510"
  {
    October2025();
    October2025Digits();
  }

  /** The digits of the two October 2025 buckets. */
  lemma {:induction false} October2025Digits()
    ensures Decimal(2568, 4) == "2568" && Decimal(2025, 4) == "2025" && Decimal(10, 2) == "10"
  {
    assert Pow10(2) == 100 && Pow10(4) == 10000;
    DecimalIsFixed(2568, 4);
    DecimalIsFixed(2025, 4);
    DecimalIsFixed(10, 2);
  }
}
