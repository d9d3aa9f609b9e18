/**
 * Conversion between the prompt model and the canonical prompts-table row
 * (PromptHub.Web/Infrastructure/TableStorage/Mapping/PromptEntityMapper.cs).
 * The clock read of `FromModel` is the parameter `now`.
 */
module EntityMapper {
  import opened Wrappers
  import opened Calendar
  import opened Models
  import Ascii
  import KeyFormat
  import TagString
  import VisibilityMapper

  /** The model of a stored row read with entity tag `etag`. */
  function ToModel(e: PromptEntity, etag: nat): (m: PromptModel)
    ensures m.promptId == e.promptId && m.authorId == e.authorId && m.authorEmail.None?
    ensures m.title == e.title && m.promptText == e.promptText
    ensures TagString.IsNormalTagList(m.tags)
    ensures m.visibility == Public <==> IsPublic(e)
    ensures m.createdAt == e.createdAt && m.updatedAt == e.updatedAt
    ensures m.likes == e.likes && m.dislikes == e.dislikes && m.etag == Some(etag)
  {
    TagString.ToTagsIsNormal(Some(e.tags));
    PromptModel(
      promptId := e.promptId,
      authorId := e.authorId,
      authorEmail := None,
      title := e.title,
      promptText := e.promptText,
      tags := TagString.ToTags(Some(e.tags)),
      visibility := VisibilityMapper.ToModel(Some(e.visibility)),
      createdAt := e.createdAt,
      updatedAt := e.updatedAt,
      likes := e.likes,
      dislikes := e.dislikes,
      etag := Some(etag))
  }

  /** The stored visibility reads back as `Public`; unknown text reads as `Private`. */
  predicate IsPublic(e: PromptEntity) {
    VisibilityMapper.ToModel(Some(e.visibility)) == Public
  }

  /** A row is public exactly when its stored text, trimmed and lower-cased, is "public". */
  lemma IsPublicByText(e: PromptEntity)
    ensures IsPublic(e) <==> Ascii.ToLower(Ascii.Trim(e.visibility)) == "public"
  {
  }

  /** The row to store for a model; default timestamps take the clock reading `now`. */
  function FromModel(m: PromptModel, now: Instant): (e: PromptEntity)
    ensures e.partitionKey == KeyFormat.PromptsPartitionKey(m.authorId) && e.rowKey == m.promptId
    ensures e.promptId == m.promptId && e.authorId == m.authorId && e.authorEmail.None?
    ensures e.title == Ascii.Trim(m.title) && e.titleNormalized == Ascii.ToLower(e.title)
    ensures e.promptText == m.promptText && e.tags == TagString.ToDelimited(m.tags)
    ensures e.visibility == VisibilityMapper.ToStorage(m.visibility)
    ensures e.createdAt == (if m.createdAt == DefaultInstant then now else m.createdAt)
    ensures e.updatedAt == (if m.updatedAt == DefaultInstant then now else m.updatedAt)
    ensures !e.isDeleted && e.likes == m.likes && e.dislikes == m.dislikes
  {
    var title := Ascii.Trim(m.title);
    PromptEntity(
      partitionKey := KeyFormat.PromptsPartitionKey(m.authorId),
      rowKey := m.promptId,
      promptId := m.promptId,
      authorId := m.authorId,
      authorEmail := None,
      title := title,
      titleNormalized := Ascii.ToLower(title),
      promptText := m.promptText,
      tags := TagString.ToDelimited(m.tags),
      visibility := VisibilityMapper.ToStorage(m.visibility),
      createdAt := if m.createdAt == DefaultInstant then now else m.createdAt,
      updatedAt := if m.updatedAt == DefaultInstant then now else m.updatedAt,
      isDeleted := false,
      likes := m.likes,
      dislikes := m.dislikes)
  }

  /** A stored row is in storage form: trimmed title, its lower-case twin, a known visibility, live. */
  lemma {:induction false} FromModelStorageForm(m: PromptModel, now: Instant)
    ensures var e := FromModel(m, now);
      Ascii.IsTrimmed(e.title) && Ascii.IsLower(e.titleNormalized)
      && Ascii.ToLower(e.title) == e.titleNormalized
      && (e.visibility == "public" || e.visibility == "private")
      && !e.isDeleted
      && e.partitionKey == KeyFormat.PromptsPartitionKey(m.authorId) && e.rowKey == m.promptId
  {
  }

  /** Only default timestamps change, and both take the same clock reading. */
  lemma FromModelTimestamps(m: PromptModel, now: Instant)
    ensures m.createdAt != DefaultInstant ==> FromModel(m, now).createdAt == m.createdAt
    ensures m.updatedAt != DefaultInstant ==> FromModel(m, now).updatedAt == m.updatedAt
    ensures FromModel(m, now).createdAt != DefaultInstant || now == DefaultInstant
    ensures m.createdAt == DefaultInstant && m.updatedAt == DefaultInstant ==>
      FromModel(m, now).createdAt == FromModel(m, now).updatedAt
  {
  }

  /**
   * Storing and reading back keeps identity, text, visibility, counts and non-default
   * timestamps, trims the title, and keeps tags that are already normal.
   */
  lemma {:induction false} RoundTrip(m: PromptModel, now: Instant, etag: nat)
    ensures var r := ToModel(FromModel(m, now), etag);
      r.promptId == m.promptId && r.authorId == m.authorId && r.promptText == m.promptText
      && r.visibility == m.visibility && r.likes == m.likes && r.dislikes == m.dislikes
      && r.title == Ascii.Trim(m.title)
      && (m.createdAt != DefaultInstant ==> r.createdAt == m.createdAt)
      && (m.updatedAt != DefaultInstant ==> r.updatedAt == m.updatedAt)
      && (TagString.IsNormalTagList(m.tags) ==> r.tags == m.tags)
      && r.etag == Some(etag)
  {
    VisibilityMapper.RoundTrip(m.visibility);
    if TagString.IsNormalTagList(m.tags) {
      TagString.ToDelimitedOfNormal(m.tags);
      TagString.ToTagsOfJoin(m.tags);
    }
  }

  /** Whatever tags are stored, reading them back and storing again is stable. */
  lemma {:induction false} TagsStable(e: PromptEntity, etag: nat, now: Instant)
    ensures ToModel(FromModel(ToModel(e, etag), now), etag).tags == ToModel(e, etag).tags
  {
    TagString.ToTagsRoundTrip(Some(e.tags));
  }
}
