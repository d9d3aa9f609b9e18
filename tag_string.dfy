/**
 * The delimited tag string stored in table storage
 * (PromptHub.Web/Infrastructure/TableStorage/Mapping/TagString.cs).
 */
module TagString {
  import opened Wrappers
  import opened Ascii
  import opened Seqs

  const Separator: char := ';'

  /** `String.Split(';')` without options: every piece, empty ones included. */
  function Split(s: string): (pieces: seq<string>)
    ensures |pieces| >= 1
    ensures forall i :: 0 <= i < |pieces| ==> Separator !in pieces[i]
  {
    if |s| == 0 then [""]
    else
      var rest := Split(s[1..]);
      if s[0] == Separator then [""] + rest else [[s[0]] + rest[0]] + rest[1..]
  }

  /** `string.Join(';', pieces)`. */
  function Join(pieces: seq<string>): string {
    if |pieces| == 0 then ""
    else if |pieces| == 1 then pieces[0]
    else pieces[0] + [Separator] + Join(pieces[1..])
  }

  /** Trim every entry (`StringSplitOptions.TrimEntries`). */
  function TrimAll(ps: seq<string>): (r: seq<string>)
    ensures |r| == |ps| && forall i :: 0 <= i < |ps| ==> r[i] == Trim(ps[i])
  {
    seq(|ps|, i requires 0 <= i < |ps| => Trim(ps[i]))
  }

  /** Lower-case every entry. */
  function LowerAll(ps: seq<string>): (r: seq<string>)
    ensures |r| == |ps| && forall i :: 0 <= i < |ps| ==> r[i] == ToLower(ps[i])
  {
    seq(|ps|, i requires 0 <= i < |ps| => ToLower(ps[i]))
  }

  /** Trim, then lower-case, every entry. */
  function NormalizeAll(ps: seq<string>): (r: seq<string>)
    ensures |r| == |ps| && forall i :: 0 <= i < |ps| ==> r[i] == ToLower(Trim(ps[i]))
  {
    seq(|ps|, i requires 0 <= i < |ps| => ToLower(Trim(ps[i])))
  }

  predicate NonEmpty(p: string) {
    |p| > 0
  }

  predicate NotBlank(p: string) {
    !IsBlank(p)
  }

  /** `StringSplitOptions.RemoveEmptyEntries`. */
  function KeepNonEmpty(ps: seq<string>): seq<string> {
    Filter(NonEmpty, ps)
  }

  /** `Where(x => !string.IsNullOrWhiteSpace(x))`. */
  function KeepNonBlank(ps: seq<string>): seq<string> {
    Filter(NotBlank, ps)
  }

  /** The entries of split pieces as the parse keeps them: trimmed, non-empty, lowered, non-blank. */
  function Entries(pieces: seq<string>): seq<string> {
    KeepNonBlank(LowerAll(KeepNonEmpty(TrimAll(pieces))))
  }

  /** `TagString.ToTags`: parse a stored tag string into normalized, distinct tags. */
  function ToTags(value: Option<string>): seq<string> {
    if value.None? || IsBlank(value.value) then []
    else Distinct(Entries(Split(value.value)))
  }

  /** `TagString.ToDelimited`: the normalized storage form of a tag list. */
  function ToDelimited(tags: seq<string>): string {
    if |tags| == 0 then ""
    else Join(Distinct(KeepNonBlank(NormalizeAll(tags))))
  }

  /** A tag as storage keeps it: non-empty, trimmed, lower case, free of the separator. */
  predicate IsNormalTag(t: string) {
    |t| > 0 && IsTrimmed(t) && IsLower(t) && Separator !in t
  }

  predicate AllNormal(ts: seq<string>) {
    forall i :: 0 <= i < |ts| ==> IsNormalTag(ts[i])
  }

  predicate IsNormalTagList(ts: seq<string>) {
    NoDuplicates(ts) && AllNormal(ts)
  }

  /** Trimmed, non-empty entries of a split are normal once lowered. */
  lemma {:induction false} EntriesNormal(s: string)
    ensures AllNormal(LowerAll(KeepNonEmpty(TrimAll(Split(s)))))
  {
    var pieces := Split(s);
    var trimmed := TrimAll(pieces);
    var entries := KeepNonEmpty(trimmed);
    forall i | 0 <= i < |entries|
      ensures IsNormalTag(ToLower(entries[i]))
    {
      var e := entries[i];
      assert e in trimmed && |e| > 0;
      var k :| 0 <= k < |pieces| && trimmed[k] == e;
      TrimKeepsChar(pieces[k], Separator);
      LowerKeepsNonLetter(e, Separator);
      TrimmedStaysTrimmedWhenLowered(e);
    }
  }

  lemma TrimAllSnoc(ps: seq<string>, p: string)
    ensures TrimAll(ps + [p]) == TrimAll(ps) + [Trim(p)]
  {
  }

  lemma LowerAllSnoc(ps: seq<string>, p: string)
    ensures LowerAll(ps + [p]) == LowerAll(ps) + [ToLower(p)]
  {
  }

  /** A piece that is not blank keeps a normalized form that is not blank either. */
  lemma NormalizedNotBlank(piece: string)
    requires !IsBlank(piece)
    ensures NonEmpty(Trim(piece)) && NotBlank(ToLower(Trim(piece)))
  {
    var t := Trim(piece);
    assert !IsWhiteSpace(t[0]);
    assert !IsWhiteSpace(ToLower(t)[0]);
  }

  /** A null or blank value holds no tags. */
  lemma ToTagsOfBlank(value: Option<string>)
    requires value.None? || IsBlank(value.value)
    ensures ToTags(value) == []
  {
  }

  /**
   * One more piece adds its trimmed, lower-cased form to the entries, unless it is blank:
   * the entries follow the pieces in order.
   */
  lemma EntriesSnoc(pieces: seq<string>, piece: string)
    ensures Entries(pieces + [piece]) == Entries(pieces) + (if IsBlank(piece) then [] else [ToLower(Trim(piece))])
  {
    var trimmed := TrimAll(pieces);
    TrimAllSnoc(pieces, piece);
    FilterSnoc(NonEmpty, trimmed, Trim(piece));
    var nonEmpty := KeepNonEmpty(trimmed);
    var lowered := LowerAll(nonEmpty);
    if !IsBlank(piece) {
      NormalizedNotBlank(piece);
      LowerAllSnoc(nonEmpty, Trim(piece));
      FilterSnoc(NotBlank, lowered, ToLower(Trim(piece)));
    }
  }

  /** The entries of a prefix of the pieces are a prefix of the entries. */
  lemma {:induction false} EntriesPrefix(a: seq<string>, b: seq<string>)
    requires a <= b
    ensures Entries(a) <= Entries(b)
  {
    var ta, tb := TrimAll(a), TrimAll(b);
    assert ta == tb[..|ta|];
    FilterPrefix(NonEmpty, tb, |ta|);
    var na, nb := KeepNonEmpty(ta), KeepNonEmpty(tb);
    var la, lb := LowerAll(na), LowerAll(nb);
    assert la == lb[..|la|];
    FilterPrefix(NotBlank, lb, |la|);
  }

  /** The entries up to a non-blank piece are those of the earlier pieces and then its normalized form. */
  lemma EntriesUpTo(ps: seq<string>, k: nat)
    requires k < |ps| && !IsBlank(ps[k])
    ensures Entries(ps[..k]) + [ToLower(Trim(ps[k]))] <= Entries(ps)
  {
    assert ps[..k + 1] == ps[..k] + [ps[k]];
    EntriesSnoc(ps[..k], ps[k]);
    EntriesPrefix(ps[..k + 1], ps);
  }

  /**
   * A non-blank piece whose normalized form no earlier piece has sits, among the distinct
   * entries, right after the distinct entries of the earlier pieces.
   */
  lemma DistinctEntriesFirstOccurrence(ps: seq<string>, k: nat)
    requires k < |ps| && !IsBlank(ps[k]) && ToLower(Trim(ps[k])) !in Entries(ps[..k])
    ensures var d, before := Distinct(Entries(ps)), |Distinct(Entries(ps[..k]))|;
      before < |d| && d[before] == ToLower(Trim(ps[k]))
  {
    var t := ToLower(Trim(ps[k]));
    var es, all := Entries(ps[..k]), Entries(ps);
    EntriesUpTo(ps, k);
    DistinctSnoc(es, t);
    DistinctPrefixOf(es + [t], all);
  }

  /**
   * Parsing lists every tag at its first occurrence, in input order: a non-blank piece whose
   * normalized form no earlier piece has comes right after the tags of the earlier pieces.
   */
  lemma ToTagsFirstOccurrence(value: string, k: nat)
    requires !IsBlank(value)
    requires k < |Split(value)| && !IsBlank(Split(value)[k])
    requires ToLower(Trim(Split(value)[k])) !in Entries(Split(value)[..k])
    ensures var tags, before := ToTags(Some(value)), |Distinct(Entries(Split(value)[..k]))|;
      before < |tags| && tags[before] == ToLower(Trim(Split(value)[k]))
  {
    var ps := Split(value);
    assert ToTags(Some(value)) == Distinct(Entries(ps));
    DistinctEntriesFirstOccurrence(ps, k);
  }

  /** Parsing always yields normal, distinct tags. */
  lemma {:induction false} ToTagsIsNormal(value: Option<string>)
    ensures IsNormalTagList(ToTags(value))
  {
    if value.Some? && !IsBlank(value.value) {
      var lowered := LowerAll(KeepNonEmpty(TrimAll(Split(value.value))));
      EntriesNormal(value.value);
      var kept := KeepNonBlank(lowered);
      var r := Distinct(kept);
      forall i | 0 <= i < |r|
        ensures IsNormalTag(r[i])
      {
        assert r[i] in kept;
        assert r[i] in lowered;
      }
    }
  }

  lemma {:induction false} SplitSingle(p: string)
    requires Separator !in p
    ensures Split(p) == [p]
  {
    if |p| > 0 {
      SplitSingle(p[1..]);
      assert [p[0]] + p[1..] == p;
    }
  }

  lemma {:induction false} SplitFirst(p: string, rest: string)
    requires Separator !in p
    ensures Split(p + [Separator] + rest) == [p] + Split(rest)
  {
    var s := p + [Separator] + rest;
    if |p| > 0 {
      assert s[1..] == p[1..] + [Separator] + rest;
      SplitFirst(p[1..], rest);
      assert [p[0]] + p[1..] == p;
    } else {
      assert s[1..] == rest;
    }
  }

  /** Splitting a join of separator-free pieces gives the pieces back. */
  lemma {:induction false} SplitJoin(ps: seq<string>)
    requires |ps| >= 1
    requires forall i :: 0 <= i < |ps| ==> Separator !in ps[i]
    ensures Split(Join(ps)) == ps
  {
    if |ps| == 1 {
      SplitSingle(ps[0]);
    } else {
      SplitJoin(ps[1..]);
      SplitFirst(ps[0], Join(ps[1..]));
    }
  }

  lemma {:induction false} JoinStartsWith(ps: seq<string>)
    requires |ps| >= 1
    ensures |Join(ps)| >= |ps[0]| && Join(ps)[..|ps[0]|] == ps[0]
  {
  }

  /** The stored form of normal tags is their plain join. */
  lemma {:induction false} ToDelimitedOfNormal(ts: seq<string>)
    requires IsNormalTagList(ts)
    ensures ToDelimited(ts) == Join(ts)
  {
    if |ts| > 0 {
      forall i | 0 <= i < |ts|
        ensures NormalizeAll(ts)[i] == ts[i]
      {
        assert Trim(ts[i]) == ts[i];
      }
      assert NormalizeAll(ts) == ts;
      forall i | 0 <= i < |ts|
        ensures !IsBlank(ts[i])
      {
        TrimmedNonEmptyIsNotBlank(ts[i]);
      }
    }
  }

  /** Every step of the parse leaves a list of normal tags unchanged. */
  lemma {:induction false} PipelineFixesNormal(ts: seq<string>)
    requires IsNormalTagList(ts)
    ensures TrimAll(ts) == ts && KeepNonEmpty(ts) == ts && LowerAll(ts) == ts && KeepNonBlank(ts) == ts
  {
    forall i | 0 <= i < |ts|
      ensures TrimAll(ts)[i] == ts[i] && LowerAll(ts)[i] == ts[i] && NotBlank(ts[i])
    {
      TrimmedNonEmptyIsNotBlank(ts[i]);
    }
  }

  /** Parsing the join of normal tags gives the tags back. */
  lemma {:induction false} ToTagsOfJoin(ts: seq<string>)
    requires IsNormalTagList(ts)
    ensures ToTags(Some(Join(ts))) == ts
  {
    if |ts| > 0 {
      var s := Join(ts);
      JoinStartsWith(ts);
      assert s[0] == ts[0][0];
      assert !IsBlank(s) by {
        assert !IsWhiteSpace(s[0]);
      }
      SplitJoin(ts);
      PipelineFixesNormal(ts);
    }
  }

  /** Storing and re-reading a parsed tag list gives the same list. */
  lemma ToTagsRoundTrip(value: Option<string>)
    ensures ToTags(Some(ToDelimited(ToTags(value)))) == ToTags(value)
  {
    var ts := ToTags(value);
    ToTagsIsNormal(value);
    ToDelimitedOfNormal(ts);
    ToTagsOfJoin(ts);
  }

  /** Tags free of the separator read back as their trimmed, lower-cased, distinct non-blank forms. */
  lemma {:induction false} ToDelimitedReadBack(tags: seq<string>)
    requires forall i :: 0 <= i < |tags| ==> Separator !in tags[i]
    ensures ToTags(Some(ToDelimited(tags))) == Distinct(KeepNonBlank(NormalizeAll(tags)))
  {
    var normalized := NormalizeAll(tags);
    var kept := KeepNonBlank(normalized);
    var d := Distinct(kept);
    forall i | 0 <= i < |d|
      ensures IsNormalTag(d[i])
    {
      assert d[i] in kept;
      var j :| 0 <= j < |tags| && normalized[j] == d[i];
      TrimKeepsChar(tags[j], Separator);
      LowerKeepsNonLetter(Trim(tags[j]), Separator);
      TrimmedStaysTrimmedWhenLowered(Trim(tags[j]));
    }
    ToTagsOfJoin(d);
  }
}
