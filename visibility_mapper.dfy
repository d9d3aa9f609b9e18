/**
 * Visibility as stored in table storage
 * (PromptHub.Web/Infrastructure/TableStorage/Mapping/PromptVisibilityMapper.cs).
 */
module VisibilityMapper {
  import opened Wrappers
  import opened Models
  import Ascii

  /** The stored spelling of a visibility. */
  function ToStorage(v: Visibility): (s: string)
    ensures s == "public" || s == "private"
  {
    match v
    case Public => "public"
    case _ => "private"
  }

  /** Read a stored (possibly null) visibility: only a `public` spelling means Public. */
  function ToModel(stored: Option<string>): (v: Visibility)
    ensures v == Public <==> stored.Some? && Ascii.ToLower(Ascii.Trim(stored.value)) == "public"
  {
    if stored.Some? && Ascii.ToLower(Ascii.Trim(stored.value)) == "public" then Public else Private
  }

  /** Reading back what was stored gives the visibility that was stored. */
  lemma RoundTrip(v: Visibility)
    ensures ToModel(Some(ToStorage(v))) == v
  {
  }

  /** Only the spelling "public" is stored for a public prompt. */
  lemma StoragePublicIff(v: Visibility)
    ensures ToStorage(v) == "public" <==> v == Public
  {
  }

  /** Reading ignores surrounding white space and letter case. */
  lemma {:induction false} ToModelNormalizes(s: string)
    ensures ToModel(Some(s)) == ToModel(Some(Ascii.ToLower(Ascii.Trim(s))))
  {
    Ascii.NormalizeIdempotent(s);
  }

  /** Null and every spelling that does not normalize to "public" read as Private. */
  lemma ToModelPrivate(stored: Option<string>)
    requires stored.None? || Ascii.ToLower(Ascii.Trim(stored.value)) != "public"
    ensures ToModel(stored) == Private
  {
  }

  /** A padded, upper-case spelling still reads as Public. */
  lemma PaddedUpperCaseIsPublic()
    ensures ToModel(Some(" PUBLIC\t")) == Public
  {
    assert " PUBLIC\t"[1..] == "PUBLIC\t";
    assert "PUBLIC\t"[..6] == "PUBLIC";
    assert Ascii.Trim(" PUBLIC\t") == Ascii.Trim("PUBLIC\t");
    assert Ascii.Trim("PUBLIC\t") == Ascii.Trim("PUBLIC");
    assert Ascii.IsTrimmed("PUBLIC");
    var lowered := Ascii.ToLower("PUBLIC");
    assert |lowered| == 6;
    assert lowered[0] == 'p' && lowered[1] == 'u' && lowered[2] == 'b';
    assert lowered[3] == 'l' && lowered[4] == 'i' && lowered[5] == 'c';
    assert Ascii.ToLower("PUBLIC") == "public";
  }
}
