# PromptHub storage core in Dafny

PromptHub stores prompts in Azure Table Storage and lets users vote on them. Three tables are involved:

- the canonical prompts table, partitioned by author (`u|authorId`, row key = prompt id);
- the public-newest index: one row per live public prompt, partitioned by creation month (`pub|newest|yyyyMM`), with the row key built from descending creation ticks, then a bar, then the prompt id;
- the votes table, partitioned by prompt (`p|promptId`, row key `u|voterId`).

This project models the code that keeps those tables consistent:

- the key formats and mappers;
- the write store (create, conditional update, soft delete, and the index rows each maintains);
- the read store (author lookup, the bounded month scan for a public prompt, and both paged listings);
- the vote store;
- the vote aggregate reconciler, an optimistic-concurrency retry loop of at most five attempts that clamps counts at zero and mirrors them into the index;
- the voting feature: argument checks, the vote transition table, the vote upsert and the aggregate update.

Module layout:

- `Tables` is an in-memory stand-in for one Azure table. Each partition holds rows sorted by row key. Every row carries an entity tag, and a table-wide clock supplies fresh tags. It models point reads (404 becomes none), `AddEntity` (409 when the key is taken), `UpdateEntity` (404 when missing, 412 when the tag differs), replace-mode upsert, unconditional delete, and a paged partition query whose continuation is an offset. `Tables.Table` is the mutable object the stores hold.
- `Models` holds the entities and application records. C# `int` is `Int32`, with explicit wrap-around. `VoteValue` is the enum's whole `int` range, with `NoVote`, `Like` and `Dislike` the named values 0, 1 and -1.
- `Calendar` maps UTC ticks to a year and month, following .NET's 400/100/4/1-year day split. `Ascii`, `NumberFormat` (`D19` and `yyyyMM` formatting), `LexOrder` (ordinal string order) and `Seqs` (`Where` and `Distinct`) are supporting modules.
- `KeyFormat`, `TagString`, `VisibilityMapper` and `EntityMapper` are the mapping layer.
- `WriteStore`, `ReadStore`, `VoteStore`, `AggregateStore` and `VotingFeature` hold the stores and the feature. Each store is a class over `Tables.Table` objects. Each of its methods is proved equal to a pure outcome function of the old table states, and the properties are lemmas about those functions.

Inputs from outside the core are parameters:

- clock readings (`now`);
- generated ids (`newId`);
- what happens around each attempt of the aggregate loop (`Attempt`: a concurrent writer, a failing table call, or nothing);
- the failure of the vote upsert (`upsertFault`).

## Model

| member | source | states |
|---|---|---|
| KeyFormat.IdKeysInjective | PromptHub.Web/Infrastructure/TableStorage/Mapping/KeyFormat.cs:13-27 | the author partition key, the prompt-votes partition key and the voter row key each determine the id they carry |
| KeyFormat.TagIndexKeyNormalizes | PromptHub.Web/Infrastructure/TableStorage/Mapping/KeyFormat.cs:34 | the tag index key ignores surrounding white space and letter case |
| KeyFormat.PublicNewestSameMonth | PromptHub.Web/Infrastructure/TableStorage/Mapping/KeyFormat.cs:47 | two instants share a public-newest partition exactly when they fall in the same calendar month |
| KeyFormat.KeyFamiliesDistinct | PromptHub.Web/Infrastructure/TableStorage/Mapping/KeyFormat.cs:13-47 | an author partition, a prompt-votes partition, a tag index partition, the tag catalog and a public-newest partition never share a key |
| KeyFormat.MaxTicksFits | PromptHub.Web/Infrastructure/TableStorage/Mapping/KeyFormat.cs:56-57 | the largest tick count fits in 19 decimal digits, so `D19` never widens |
| KeyFormat.CreatedAtTicksDescShape | PromptHub.Web/Infrastructure/TableStorage/Mapping/KeyFormat.cs:54-58 | the descending key is exactly 19 digits: the zero-padded distance to the largest instant |
| KeyFormat.CreatedAtTicksDescNewerFirst | PromptHub.Web/Infrastructure/TableStorage/Mapping/KeyFormat.cs:49-58 | a later instant has an ordinally smaller key, so ascending key order is newest first |
| KeyFormat.CreatedAtTicksDescInjective | PromptHub.Web/Infrastructure/TableStorage/Mapping/KeyFormat.cs:54-58 | distinct instants have distinct descending keys |
| KeyFormat.IndexRowKeyNewerFirst | PromptHub.Web/Infrastructure/TableStorage/Stores/TablePromptWriteStore.cs:111 | index row keys order prompts newest first whatever their ids |
| KeyFormat.IndexRowKeyInjective | PromptHub.Web/Infrastructure/TableStorage/Stores/TablePromptWriteStore.cs:111 | an index row key determines both the creation instant and the prompt id |
| KeyFormat.BucketTextShape | PromptHub.Web/Infrastructure/TableStorage/Mapping/KeyFormat.cs:47 | a month bucket is four year digits then two month digits |
| KeyFormat.BucketTextInjective | PromptHub.Web/Infrastructure/TableStorage/Mapping/KeyFormat.cs:47 | distinct months have distinct buckets |
| KeyFormat.BucketTextOrdered | PromptHub.Web/Infrastructure/TableStorage/Mapping/KeyFormat.cs:47 | bucket text order is calendar order |
| KeyFormat.PublicNewestPartitionKeyInCulture | PromptHub.Web/Infrastructure/TableStorage/Mapping/KeyFormat.cs:47 | the key as written, formatted in the current culture; in the invariant culture it is the model's key |
| KeyFormat.CultureKeyMissesInvariantBucket | PromptHub.Web/Infrastructure/TableStorage/Mapping/KeyFormat.cs:47 | under any culture whose years are not Gregorian, an instant's index partition differs from the one the first listing reads at that instant |
| KeyFormat.ThaiOctober2025 | PromptHub.Web/Infrastructure/TableStorage/Mapping/KeyFormat.cs:47 | under th-TH a prompt of October 2025 is indexed under pub\|newest\|256810 while the listing reads pub\|newest\|202510 |
| KeyFormat.October2025Digits | PromptHub.Web/Infrastructure/TableStorage/Mapping/KeyFormat.cs:47 | the four-digit years 2568 and 2025 and the two-digit month 10 as formatted |
| Calendar.YearMonthOf | PromptHub.Web/Infrastructure/TableStorage/Mapping/KeyFormat.cs:47 | every instant falls in a valid month of years 1 to 9999 |
| Calendar.MonthsBefore | PromptHub.Web/Infrastructure/TableStorage/Stores/TablePromptReadStore.cs:55 | stepping back `i` months gives a valid month, or none when `AddMonths(-i)` would leave the calendar |
| Calendar.MonthsBeforeIsAddMonths | PromptHub.Web/Infrastructure/TableStorage/Stores/TablePromptReadStore.cs:55 | stepping back month by month equals `AddMonths` arithmetic on the month index, and fails exactly when that index is before year 1 |
| Calendar.CalendarEnds | PromptHub.Web/Infrastructure/TableStorage/Mapping/KeyFormat.cs:47 | the default instant is in January of year 1 and the largest instant is in December 9999 |
| Calendar.LeapDay2024 | PromptHub.Web/Infrastructure/TableStorage/Mapping/KeyFormat.cs:47 | 2024-02-29 is in February 2024 |
| Calendar.LastTickOf2023 | PromptHub.Web/Infrastructure/TableStorage/Mapping/KeyFormat.cs:47 | the last tick of 2023 is still in December 2023 |
| Calendar.EndOfFebruary1900 | PromptHub.Web/Infrastructure/TableStorage/Mapping/KeyFormat.cs:47 | the last tick of February 1900 (not a leap year) is in February |
| Calendar.October2025 | PromptHub.Web/Infrastructure/TableStorage/Mapping/KeyFormat.cs:47 | 2025-10-01T00:00Z is in October 2025 |
| NumberFormat.FixedDigitsRoundTrip | PromptHub.Web/Infrastructure/TableStorage/Mapping/KeyFormat.cs:57 | a zero-padded number reads back as that number |
| NumberFormat.FixedDigitsInjective | PromptHub.Web/Infrastructure/TableStorage/Mapping/KeyFormat.cs:57 | distinct numbers pad to distinct strings |
| NumberFormat.FixedDigitsOrdered | PromptHub.Web/Infrastructure/TableStorage/Mapping/KeyFormat.cs:57 | padding to one width preserves numeric order as ordinal order |
| NumberFormat.DigitCountBound | PromptHub.Web/Infrastructure/TableStorage/Mapping/KeyFormat.cs:57 | a number below ten to the width has at most width digits |
| NumberFormat.DecimalIsFixed | PromptHub.Web/Infrastructure/TableStorage/Mapping/KeyFormat.cs:57 | minimum-width formatting of a number that fits is the fixed-width form |
| NumberFormat.DigitCountAbove | PromptHub.Web/Infrastructure/TableStorage/Mapping/KeyFormat.cs:47 | a number of at least 10^w is formatted with more than w digits |
| LexOrder.Irreflexive | PromptHub.Web/Infrastructure/TableStorage/Mapping/KeyFormat.cs:53 | ordinal order is irreflexive |
| LexOrder.Asymmetric | PromptHub.Web/Infrastructure/TableStorage/Mapping/KeyFormat.cs:53 | ordinal order is asymmetric |
| LexOrder.Transitive | PromptHub.Web/Infrastructure/TableStorage/Mapping/KeyFormat.cs:53 | ordinal order is transitive |
| LexOrder.Total | PromptHub.Web/Infrastructure/TableStorage/Mapping/KeyFormat.cs:53 | distinct strings are ordered one way or the other |
| LexOrder.PrefixDecides | PromptHub.Web/Infrastructure/TableStorage/Stores/TablePromptWriteStore.cs:111 | of two keys with equal-length, different prefixes, the prefixes decide the order |
| LexOrder.CommonPrefix | PromptHub.Web/Infrastructure/TableStorage/Stores/TablePromptWriteStore.cs:111 | a common prefix does not change the order |
| TagString.Split | PromptHub.Web/Infrastructure/TableStorage/Mapping/TagString.cs:21 | splitting on `;` gives at least one piece and no piece holds the separator |
| TagString.ToTagsOfBlank | PromptHub.Web/Infrastructure/TableStorage/Mapping/TagString.cs:15-18 | a null or blank value gives no tags |
| TagString.NormalizedNotBlank | PromptHub.Web/Infrastructure/TableStorage/Mapping/TagString.cs:21-23 | a non-blank piece trims to a non-empty entry whose lower-cased form is not blank, so it survives both filters |
| TagString.EntriesUpTo | PromptHub.Web/Infrastructure/TableStorage/Mapping/TagString.cs:20-23 | the entries of the pieces before a non-blank piece, followed by that piece's normalized form, are a prefix of all entries |
| TagString.EntriesSnoc | PromptHub.Web/Infrastructure/TableStorage/Mapping/TagString.cs:20-23 | one more piece adds its trimmed, lower-cased form to the entries exactly when it is not blank, so entries follow the pieces in order |
| TagString.EntriesPrefix | PromptHub.Web/Infrastructure/TableStorage/Mapping/TagString.cs:20-23 | the entries of a prefix of the pieces are a prefix of the entries |
| TagString.DistinctEntriesFirstOccurrence | PromptHub.Web/Infrastructure/TableStorage/Mapping/TagString.cs:20-24 | a non-blank piece with a new normalized form sits among the distinct entries right after those of the earlier pieces |
| TagString.ToTagsFirstOccurrence | PromptHub.Web/Infrastructure/TableStorage/Mapping/TagString.cs:13-26 | parsing lists each tag at its first occurrence, in input order: a piece with a new normalized form comes right after the tags of the earlier pieces |
| TagString.EntriesNormal | PromptHub.Web/Infrastructure/TableStorage/Mapping/TagString.cs:20-22 | trimmed, non-empty split entries are normal tags once lowered |
| TagString.ToTagsIsNormal | PromptHub.Web/Infrastructure/TableStorage/Mapping/TagString.cs:13-26 | parsing any stored value, null and blank included, yields distinct, non-empty, trimmed, lower-case tags without `;` |
| TagString.SplitJoin | PromptHub.Web/Infrastructure/TableStorage/Mapping/TagString.cs:40 | splitting a join of separator-free pieces gives the pieces back |
| TagString.ToDelimitedOfNormal | PromptHub.Web/Infrastructure/TableStorage/Mapping/TagString.cs:33-44 | the stored form of a normal tag list is its plain join |
| TagString.PipelineFixesNormal | PromptHub.Web/Infrastructure/TableStorage/Mapping/TagString.cs:20-25 | every step of the parse leaves a normal tag list unchanged |
| TagString.ToTagsOfJoin | PromptHub.Web/Infrastructure/TableStorage/Mapping/TagString.cs:13-26 | parsing the join of a normal tag list gives the list back |
| TagString.ToTagsRoundTrip | PromptHub.Web/Infrastructure/TableStorage/Mapping/TagString.cs:13-44 | storing and re-reading a parsed tag list gives the same list |
| TagString.ToDelimitedReadBack | PromptHub.Web/Infrastructure/TableStorage/Mapping/TagString.cs:33-44 | separator-free tags read back as their distinct, non-blank, trimmed, lower-cased forms in first-occurrence order |
| Seqs.Filter | PromptHub.Web/Infrastructure/TableStorage/Mapping/TagString.cs:23 | every kept element is from the input and satisfies the predicate, every satisfying element is kept, and nothing is dropped when all satisfy it |
| Seqs.FilterSnoc | PromptHub.Web/Infrastructure/TableStorage/Mapping/TagString.cs:23 | filtering a list extended by one element extends the filtered list by that element exactly when the predicate holds of it, so kept elements stay in input order |
| Seqs.FilterPrefix | PromptHub.Web/Infrastructure/TableStorage/Mapping/TagString.cs:23 | filtering a prefix gives a prefix of the filtered list |
| Seqs.FilterKeepsOrder | PromptHub.Web/Infrastructure/TableStorage/Mapping/TagString.cs:23 | an element the predicate keeps appears right after what is kept of the elements before it |
| Seqs.FilterKeepsNoDuplicates | PromptHub.Web/Infrastructure/TableStorage/Mapping/TagString.cs:23-24 | filtering a duplicate-free list keeps it duplicate-free |
| Seqs.Distinct | PromptHub.Web/Infrastructure/TableStorage/Mapping/TagString.cs:24 | the result has no duplicates, holds exactly the input's elements, and is the input itself when that is duplicate-free |
| Seqs.DistinctSnoc | PromptHub.Web/Infrastructure/TableStorage/Mapping/TagString.cs:24 | `Distinct` of a list extended by one element is `Distinct` of the list, extended by that element exactly when it is new |
| Seqs.DistinctPrefix | PromptHub.Web/Infrastructure/TableStorage/Mapping/TagString.cs:24 | `Distinct` of a prefix is a prefix of `Distinct` of the list |
| Seqs.DistinctPrefixOf | PromptHub.Web/Infrastructure/TableStorage/Mapping/TagString.cs:24 | `Distinct` of a prefix is a prefix of `Distinct` of the whole list |
| Seqs.DistinctKeepsFirstOccurrence | PromptHub.Web/Infrastructure/TableStorage/Mapping/TagString.cs:24 | the first occurrence of an element appears right after the distinct elements before it: first occurrences in input order |
| Seqs.DistinctKeepsFirst | PromptHub.Web/Infrastructure/TableStorage/Mapping/TagString.cs:24 | the first element survives `Distinct` in first place |
| Ascii.Trim | PromptHub.Web/Infrastructure/TableStorage/Mapping/PromptEntityMapper.cs:41 | the result is trimmed, empty exactly when the input is blank, and the input itself when already trimmed |
| Ascii.TrimIsSlice | PromptHub.Web/Infrastructure/TableStorage/Mapping/PromptEntityMapper.cs:41 | the result is one contiguous slice of the input with only white space before and after it |
| Ascii.TrimBounds | PromptHub.Web/Infrastructure/TableStorage/Mapping/PromptEntityMapper.cs:41 | gives the bounds of that slice: the result is `s[i..j]` with blank `s[..i]` and `s[j..]` |
| Ascii.LowerChar | PromptHub.Web/Infrastructure/TableStorage/Mapping/PromptEntityMapper.cs:50 | maps an upper-case ASCII letter 32 code points up to its lower-case letter, keeps every other character, never yields upper case |
| Ascii.ToLower | PromptHub.Web/Infrastructure/TableStorage/Mapping/PromptEntityMapper.cs:50 | the result has the input's length, holds `LowerChar` of the input at every position, has no upper-case letter, keeps white space where it was, and is the input itself when already lower case |
| VisibilityMapper.ToStorage | PromptHub.Web/Infrastructure/TableStorage/Mapping/PromptVisibilityMapper.cs:15-19 | a visibility is stored as `public` or `private` |
| VisibilityMapper.ToModel | PromptHub.Web/Infrastructure/TableStorage/Mapping/PromptVisibilityMapper.cs:26-30 | a stored value reads as public exactly when it is present and trims and lower-cases to `public` |
| VisibilityMapper.RoundTrip | PromptHub.Web/Infrastructure/TableStorage/Mapping/PromptVisibilityMapper.cs:15-30 | reading back what was stored gives the stored visibility |
| VisibilityMapper.StoragePublicIff | PromptHub.Web/Infrastructure/TableStorage/Mapping/PromptVisibilityMapper.cs:15-19 | `public` is stored exactly for a public prompt |
| VisibilityMapper.ToModelNormalizes | PromptHub.Web/Infrastructure/TableStorage/Mapping/PromptVisibilityMapper.cs:26-30 | reading ignores surrounding white space and letter case |
| VisibilityMapper.ToModelPrivate | PromptHub.Web/Infrastructure/TableStorage/Mapping/PromptVisibilityMapper.cs:26-30 | null, and every spelling that does not normalize to `public`, read as private |
| VisibilityMapper.PaddedUpperCaseIsPublic | PromptHub.Web/Infrastructure/TableStorage/Mapping/PromptVisibilityMapper.cs:26-30 | a padded upper-case `PUBLIC` reads as public |
| EntityMapper.IsPublicByText | PromptHub.Web/Infrastructure/TableStorage/Mapping/PromptVisibilityMapper.cs:26-30 | a stored row is public exactly when its visibility text, trimmed and lower-cased, is "public" |
| EntityMapper.ToModel | PromptHub.Web/Infrastructure/TableStorage/Mapping/PromptEntityMapper.cs:20-31 | a read model keeps the row's id, author, title, text, timestamps and counts, parses its tags into a normal tag list, is public exactly when the stored visibility reads as public, has no author email and carries the read tag |
| EntityMapper.FromModel | PromptHub.Web/Infrastructure/TableStorage/Mapping/PromptEntityMapper.cs:38-60 | a stored row sits in the author's partition under the prompt id, has the trimmed title and its lower-case form, the delimited tags and stored visibility, takes the clock for unset timestamps, and is live |
| EntityMapper.FromModelStorageForm | PromptHub.Web/Infrastructure/TableStorage/Mapping/PromptEntityMapper.cs:38-60 | a stored row has the author partition, the id as row key, a trimmed title and its lower-case twin, a known visibility spelling, and is live |
| EntityMapper.FromModelTimestamps | PromptHub.Web/Infrastructure/TableStorage/Mapping/PromptEntityMapper.cs:40-55 | only default timestamps change, and both take the same clock reading |
| EntityMapper.RoundTrip | PromptHub.Web/Infrastructure/TableStorage/Mapping/PromptEntityMapper.cs:20-60 | reading back a stored model keeps its id, author, text, counts, visibility and set timestamps, trims its title, keeps tags already normal, and carries the row's tag |
| EntityMapper.TagsStable | PromptHub.Web/Infrastructure/TableStorage/Mapping/PromptEntityMapper.cs:20-52 | whatever tags are stored, reading, storing again and reading gives the same tags |
| Models.Wrap32 | PromptHub.Web/Infrastructure/TableStorage/Stores/TablePromptVoteAggregateStore.cs:49-50 | unchecked `int` arithmetic: the identity inside the range, congruent modulo 2^32 outside it |
| Models.ToVoteValue | PromptHub.Web/Infrastructure/TableStorage/Stores/TableVoteStore.cs:34 | the enum cast keeps the number |
| Models.FromVoteValue | PromptHub.Web/Infrastructure/TableStorage/Stores/TableVoteStore.cs:50 | the `int` cast keeps the number |
| Tables.Values | PromptHub.Web/Infrastructure/TableStorage/Tables/PublicPromptsNewestIndex/PublicPromptsNewestIndexTable.cs:62-79 | the entities of a partition, one per row, in row-key order |
| Tables.Find | PromptHub.Web/Infrastructure/TableStorage/Tables/Prompts/PromptsTable.cs:42-53 | a found row has the key and is in the partition; none means no row has the key |
| Tables.FindSorted | PromptHub.Web/Infrastructure/TableStorage/Tables/Prompts/PromptsTable.cs:42-53 | in a sorted partition a key names at most one row, the one found |
| Tables.Insert | PromptHub.Web/Infrastructure/TableStorage/Tables/Prompts/PromptsTable.cs:61 | inserting an absent key keeps the partition sorted and adds exactly the new row |
| Tables.Remove | PromptHub.Web/Infrastructure/TableStorage/Tables/PublicPromptsNewestIndex/PublicPromptsNewestIndexTable.cs:51 | removing keeps only rows of the partition under other keys |
| Tables.RemoveSorted | PromptHub.Web/Infrastructure/TableStorage/Tables/PublicPromptsNewestIndex/PublicPromptsNewestIndexTable.cs:51 | removing keeps the partition sorted and leaves the key empty |
| Tables.RemoveKeeps | PromptHub.Web/Infrastructure/TableStorage/Tables/PublicPromptsNewestIndex/PublicPromptsNewestIndexTable.cs:51 | removing keeps every row under another key |
| Tables.Put | PromptHub.Web/Infrastructure/TableStorage/Tables/Prompts/PromptsTable.cs:69 | replace-or-insert keeps the partition sorted |
| Tables.FindPut | PromptHub.Web/Infrastructure/TableStorage/Tables/Prompts/PromptsTable.cs:69 | after replace-or-insert the key holds the new row and every other key what it held |
| Tables.FindRemove | PromptHub.Web/Infrastructure/TableStorage/Tables/PublicPromptsNewestIndex/PublicPromptsNewestIndexTable.cs:51 | after a remove the key is empty and every other key holds what it held |
| Tables.TableState.Upsert | PromptHub.Web/Infrastructure/TableStorage/Tables/Prompts/PromptsTable.cs:69 | a replace-mode upsert keeps the table valid and consumes one fresh entity tag |
| Tables.TableState.Delete | PromptHub.Web/Infrastructure/TableStorage/Tables/PublicPromptsNewestIndex/PublicPromptsNewestIndexTable.cs:51 | an unconditional delete keeps the table valid and issues no tag |
| Tables.TableState.Query | PromptHub.Web/Infrastructure/TableStorage/Tables/PublicPromptsNewestIndex/PublicPromptsNewestIndexTable.cs:62-79 | a page holds at most the page size |
| Tables.GetUpsert | PromptHub.Web/Infrastructure/TableStorage/Tables/Prompts/PromptsTable.cs:42-69 | a read after an upsert sees the new row under the fresh tag at its key and the old rows elsewhere |
| Tables.GetDelete | PromptHub.Web/Infrastructure/TableStorage/Tables/PublicPromptsNewestIndex/PublicPromptsNewestIndexTable.cs:51 | a read after a delete sees nothing at its key and the old rows elsewhere |
| Tables.GetTagIsOld | PromptHub.Web/Infrastructure/TableStorage/Tables/Prompts/PromptsTable.cs:42-53 | a row read from the table carries a tag older than any write that follows |
| Tables.QueryCovers | PromptHub.Web/Infrastructure/TableStorage/Tables/PublicPromptsNewestIndex/PublicPromptsNewestIndexTable.cs:62-79 | starting without a continuation or resuming at one, a query returns the next rows in key order and a continuation exactly when rows remain |
| Tables.QueryContinuation | PromptHub.Web/Infrastructure/TableStorage/Tables/PublicPromptsNewestIndex/PublicPromptsNewestIndexTable.cs:62-79 | the continuation of a query is the offset after the page, none once the partition is exhausted |
| Tables.QueryPage | PromptHub.Web/Infrastructure/TableStorage/Tables/PublicPromptsNewestIndex/PublicPromptsNewestIndexTable.cs:62-79 | from the start (no continuation) or from a continuation, a query returns the next page-size entities, or the rest, and the offset after them unless the partition is exhausted |
| Tables.Table.constructor | PromptHub.Web/Infrastructure/TableStorage/Tables/Prompts/PromptsTable.cs:22-26 | a new table is empty |
| Tables.Table.Get | PromptHub.Web/Infrastructure/TableStorage/Tables/Prompts/PromptsTable.cs:42-53 | the point read of the current state |
| Tables.Table.Add | PromptHub.Web/Infrastructure/TableStorage/Tables/Prompts/PromptsTable.cs:61 | adds the row, or fails with 409 and changes nothing |
| Tables.Table.Update | PromptHub.Web/Infrastructure/TableStorage/Tables/Prompts/PromptsTable.cs:78-79 | replaces the row when the tag matches, else fails with 404 or 412 and changes nothing |
| Tables.Table.Upsert | PromptHub.Web/Infrastructure/TableStorage/Tables/Prompts/PromptsTable.cs:69 | the state becomes the upserted state |
| Tables.Table.Delete | PromptHub.Web/Infrastructure/TableStorage/Tables/PublicPromptsNewestIndex/PublicPromptsNewestIndexTable.cs:51 | the state becomes the deleted state |
| Tables.Table.Query | PromptHub.Web/Infrastructure/TableStorage/Tables/PublicPromptsNewestIndex/PublicPromptsNewestIndexTable.cs:62-79 | the page of the current state |
| WriteStore.ToPublicNewestIndexEntity | PromptHub.Web/Infrastructure/TableStorage/Stores/TablePromptWriteStore.cs:108-129 | the index row sits at the month partition and descending-ticks key of its creation time (the clock when unset), carries the model's identity and counts, the trimmed title and its lower-case form, the delimited tags, and the model's update time or the creation time when that is unset |
| WriteStore.IndexRowMirrorsStoredRow | PromptHub.Web/Infrastructure/TableStorage/Stores/TablePromptWriteStore.cs:108-129 | with both timestamps set, the write store's index row is the reconciler's mirror of the stored row, except for the author e-mail, which the stored row does not keep |
| WriteStore.CreateOutcome | PromptHub.Web/Infrastructure/TableStorage/Stores/TablePromptWriteStore.cs:35-52 | create keeps both tables valid |
| WriteStore.UpdateOutcome | PromptHub.Web/Infrastructure/TableStorage/Stores/TablePromptWriteStore.cs:55-85 | update keeps both tables valid |
| WriteStore.SoftDeleteOutcome | PromptHub.Web/Infrastructure/TableStorage/Stores/TablePromptWriteStore.cs:88-106 | soft delete keeps both tables valid |
| WriteStore.ExpectedIndexKey | PromptHub.Web/Infrastructure/TableStorage/Stores/TablePromptWriteStore.cs:45-48 | a canonical row has an index key exactly when it is live and public |
| WriteStore.IndexedAfterUpsert | PromptHub.Web/Infrastructure/TableStorage/Stores/TablePromptWriteStore.cs:48 | after an index upsert the prompt is indexed at the new key, or where it was before |
| WriteStore.IndexedAfterDelete | PromptHub.Web/Infrastructure/TableStorage/Stores/TablePromptWriteStore.cs:72-75 | after an index delete the prompt is indexed where it was before, except at the deleted key |
| WriteStore.UpsertKeepsOthers | PromptHub.Web/Infrastructure/TableStorage/Stores/TablePromptWriteStore.cs:80-81 | upserting a well-keyed index row keeps the index well keyed and other prompts' rows as they were |
| WriteStore.DeleteKeepsOthers | PromptHub.Web/Infrastructure/TableStorage/Stores/TablePromptWriteStore.cs:72-75 | deleting at a prompt's key keeps the index well keyed and other prompts' rows as they were |
| WriteStore.CreateStores | PromptHub.Web/Infrastructure/TableStorage/Stores/TablePromptWriteStore.cs:35-52 | create succeeds exactly when the new id is free, then stores the mapped model under a fresh tag and changes no other row; a taken id fails with 409 and writes nothing |
| WriteStore.CreateKeepsIndexConsistent | PromptHub.Web/Infrastructure/TableStorage/Stores/TablePromptWriteStore.cs:45-49 | after a create the index names the new prompt exactly at its key when public, at no key otherwise, and other prompts' rows are kept |
| WriteStore.UpdateNotFound | PromptHub.Web/Infrastructure/TableStorage/Stores/TablePromptWriteStore.cs:57-61 | update fails with "Prompt not found." exactly when the row is missing or soft-deleted, and then writes nothing |
| WriteStore.UpdateIsConditional | PromptHub.Web/Infrastructure/TableStorage/Stores/TablePromptWriteStore.cs:63-66 | on a live row update succeeds exactly when the expected tag is the row's, and a stale tag fails with 412 and writes nothing |
| WriteStore.DropOldIndexRow | PromptHub.Web/Infrastructure/TableStorage/Stores/TablePromptWriteStore.cs:70-76 | deleting the key of a live row that was public removes the prompt from the index and keeps other prompts' rows |
| WriteStore.UpdateKeepsIndexConsistent | PromptHub.Web/Infrastructure/TableStorage/Stores/TablePromptWriteStore.cs:55-85 | after any update, successful or not, the index agrees with the row whether or not the visibility changed, and other prompts' rows are kept |
| WriteStore.SoftDeleteMarks | PromptHub.Web/Infrastructure/TableStorage/Stores/TablePromptWriteStore.cs:88-97 | soft delete never fails; a missing row is a no-op; an existing row keeps every field, is marked deleted under a fresh tag, and no other row changes |
| WriteStore.SoftDeleteKeepsIndexConsistent | PromptHub.Web/Infrastructure/TableStorage/Stores/TablePromptWriteStore.cs:99-105 | after a soft delete the index names the prompt nowhere, and other prompts' rows are kept |
| WriteStore.DefaultCreatedAtSplitsKeys | PromptHub.Web/Infrastructure/TableStorage/Stores/TablePromptWriteStore.cs:35-52 | with an unset creation time and two different clock readings, the index row is not at the key of the stored row's creation time |
| WriteStore.TablePromptWriteStore.constructor | PromptHub.Web/Infrastructure/TableStorage/Stores/TablePromptWriteStore.cs:28-32 | the store holds the two tables it is given |
| WriteStore.TablePromptWriteStore.Create | PromptHub.Web/Infrastructure/TableStorage/Stores/TablePromptWriteStore.cs:35-52 | result and new states are those of `CreateOutcome` |
| WriteStore.TablePromptWriteStore.Update | PromptHub.Web/Infrastructure/TableStorage/Stores/TablePromptWriteStore.cs:55-85 | result and new states are those of `UpdateOutcome` |
| WriteStore.TablePromptWriteStore.SoftDelete | PromptHub.Web/Infrastructure/TableStorage/Stores/TablePromptWriteStore.cs:88-106 | new states are those of `SoftDeleteOutcome` |
| ReadStore.ByIdForAuthor | PromptHub.Web/Infrastructure/TableStorage/Stores/TablePromptReadStore.cs:23-32 | a prompt comes back exactly when the author's row is present and live, as the mapped model with the row's tag |
| ReadStore.FirstWithId | PromptHub.Web/Infrastructure/TableStorage/Stores/TablePromptReadStore.cs:62 | a match is an item with the id; none exactly when no item has it |
| ReadStore.FirstWithIdIsFirst | PromptHub.Web/Infrastructure/TableStorage/Stores/TablePromptReadStore.cs:62 | the match is the first item with the id |
| ReadStore.FirstWithIdConcat | PromptHub.Web/Infrastructure/TableStorage/Stores/TablePromptReadStore.cs:59-77 | the first match in two pages is the first page's, else the second's |
| ReadStore.FirstWithIdResume | PromptHub.Web/Infrastructure/TableStorage/Stores/TablePromptReadStore.cs:59-77 | after pages without a match, the next page's match is the partition's |
| ReadStore.FirstWithIdUpTo | PromptHub.Web/Infrastructure/TableStorage/Stores/TablePromptReadStore.cs:59-77 | with no match before an offset, the first match up to the end of the next page is that page's first match |
| ReadStore.FirstWithIdAfterMiss | PromptHub.Web/Infrastructure/TableStorage/Stores/TablePromptReadStore.cs:59-77 | when a prefix holds no match, searching all rows is searching the rest |
| ReadStore.FirstWithIdOfPrefix | PromptHub.Web/Infrastructure/TableStorage/Stores/TablePromptReadStore.cs:59-77 | a match found in a prefix is the first match of all rows |
| ReadStore.BucketPartitionOfInstant | PromptHub.Web/Infrastructure/TableStorage/Stores/TablePromptReadStore.cs:55-56 | the partition of an instant's month is the instant's index partition |
| ReadStore.CandidateBuckets | PromptHub.Web/Infrastructure/TableStorage/Stores/TablePromptReadStore.cs:48-56 | exactly 24 buckets are scanned |
| ReadStore.CandidateBucketsAreMonths | PromptHub.Web/Infrastructure/TableStorage/Stores/TablePromptReadStore.cs:53-56 | bucket `i` is the partition of the month `i` months before now, or none where `AddMonths` would fail |
| ReadStore.CandidateBucketsPresent | PromptHub.Web/Infrastructure/TableStorage/Stores/TablePromptReadStore.cs:53-56 | from year 3 on, all 24 buckets exist |
| ReadStore.BucketMatch | PromptHub.Web/Infrastructure/TableStorage/Stores/TablePromptReadStore.cs:58-77 | a match of a bucket carries the id |
| ReadStore.ScanBuckets | PromptHub.Web/Infrastructure/TableStorage/Stores/TablePromptReadStore.cs:53-80 | a match found carries the id |
| ReadStore.ScanBucketsFindsNewest | PromptHub.Web/Infrastructure/TableStorage/Stores/TablePromptReadStore.cs:53-73 | a match comes from the newest bucket holding the id; every newer bucket exists and lacks it |
| ReadStore.ScanBucketsMissing | PromptHub.Web/Infrastructure/TableStorage/Stores/TablePromptReadStore.cs:53-80 | finding nothing means no scanned bucket holds the id |
| ReadStore.ScanBucketsFails | PromptHub.Web/Infrastructure/TableStorage/Stores/TablePromptReadStore.cs:55 | the scan fails only with `ArgumentOutOfRange`, on reaching a month before the calendar with no match earlier, and never fails when all buckets exist |
| ReadStore.Resolve | PromptHub.Web/Infrastructure/TableStorage/Stores/TablePromptReadStore.cs:65-72 | a prompt comes back exactly when the canonical row under the matched author is present, live and public, as its mapped model |
| ReadStore.PublicByIdSound | PromptHub.Web/Infrastructure/TableStorage/Stores/TablePromptReadStore.cs:35-81 | a blank id finds nothing; a prompt found is the live public canonical row under the author named by the first matching index row |
| ReadStore.ToSummary | PromptHub.Web/Infrastructure/TableStorage/Stores/TablePromptReadStore.cs:112-123 | the summary keeps the id and counts, has no user vote, and is public exactly when the row is |
| ReadStore.LiveMap | PromptHub.Web/Infrastructure/TableStorage/Stores/TablePromptReadStore.cs:105-124 | skipping deleted rows never lengthens the page |
| ReadStore.LiveMapFromLive | PromptHub.Web/Infrastructure/TableStorage/Stores/TablePromptReadStore.cs:107-110 | every listed summary is the summary of a live row of the page |
| ReadStore.LiveMapKeepsLive | PromptHub.Web/Infrastructure/TableStorage/Stores/TablePromptReadStore.cs:105-124 | every live row of the page is listed |
| ReadStore.LiveMapAllLive | PromptHub.Web/Infrastructure/TableStorage/Stores/TablePromptReadStore.cs:105-124 | a page without deleted rows is listed one to one, in order |
| ReadStore.MyPrompts | PromptHub.Web/Infrastructure/TableStorage/Stores/TablePromptReadStore.cs:90-93 | a non-positive page size gives an empty page without a token; no page exceeds the page size |
| ReadStore.Listing | PromptHub.Web/Infrastructure/TableStorage/Stores/TablePromptReadStore.cs:90-131 | a non-positive page size gives an empty page without a token; no page exceeds the page size |
| ReadStore.ListingPage | PromptHub.Web/Infrastructure/TableStorage/Stores/TablePromptReadStore.cs:95-131 | for any mapping of rows, one listing page holds the mapped live rows among the next page-size rows of the partition after the start offset; the token is the offset where the page ends, absent exactly at the end of the partition |
| ReadStore.MyPromptsPage | PromptHub.Web/Infrastructure/TableStorage/Stores/TablePromptReadStore.cs:95-131 | from the first page (no token) or resuming at a token, lists the live rows among the next page-size rows of the author's partition; the token is the following offset, absent exactly at the end |
| ReadStore.PublicSummary | PromptHub.Web/Infrastructure/TableStorage/Stores/TablePromptReadStore.cs:155-166 | an index summary is public, not voted, and keeps the row's id and counts |
| ReadStore.StartCursor | PromptHub.Web/Infrastructure/TableStorage/Stores/TablePromptReadStore.cs:142-147 | without a token the listing starts at the current month with no continuation; otherwise at the token's cursor |
| ReadStore.PublicNewestStaysInBucket | PromptHub.Web/Infrastructure/TableStorage/Stores/TablePromptReadStore.cs:149-173 | the listing fails exactly for a negative page size; otherwise it maps the bucket's page item by item, holds at most page-size items, and gives a next cursor in the same bucket exactly when the store has more rows |
| ReadStore.PublicNewestStartsNow | PromptHub.Web/Infrastructure/TableStorage/Stores/TablePromptReadStore.cs:142-150 | without a token the partition read is the current month's index partition |
| ReadStore.PublicNewestWalksBucket | PromptHub.Web/Infrastructure/TableStorage/Stores/TablePromptReadStore.cs:150-171 | from a bucket's start or any cursor in it, the listing walks the bucket in row-key order, page by page, ending with no cursor at its last row |
| ReadStore.TablePromptReadStore.constructor | PromptHub.Web/Infrastructure/TableStorage/Stores/TablePromptReadStore.cs:18-20 | the store holds the two tables it is given |
| ReadStore.TablePromptReadStore.GetByIdForAuthor | PromptHub.Web/Infrastructure/TableStorage/Stores/TablePromptReadStore.cs:23-32 | returns `ByIdForAuthor` of the current state |
| ReadStore.TablePromptReadStore.ScanBucket | PromptHub.Web/Infrastructure/TableStorage/Stores/TablePromptReadStore.cs:58-77 | the paged do-while loop over one bucket returns the first index row with the id |
| ReadStore.TablePromptReadStore.GetPublicById | PromptHub.Web/Infrastructure/TableStorage/Stores/TablePromptReadStore.cs:35-81 | the 24-bucket loop returns `PublicById` of the current state |
| ReadStore.TablePromptReadStore.ListMyPrompts | PromptHub.Web/Infrastructure/TableStorage/Stores/TablePromptReadStore.cs:84-134 | the loop over the first page returns `MyPrompts` of the current state |
| ReadStore.TablePromptReadStore.ListPublicNewest | PromptHub.Web/Infrastructure/TableStorage/Stores/TablePromptReadStore.cs:137-174 | returns `PublicNewest` of the current state |
| VoteStore.VoteRow | PromptHub.Web/Infrastructure/TableStorage/Stores/TableVoteStore.cs:44-52 | the vote row sits under the prompt's votes partition and the voter's row key, names both ids and the write time, and its stored number reads back as the vote |
| VoteStore.VoteOf | PromptHub.Web/Infrastructure/TableStorage/Stores/TableVoteStore.cs:18-37 | blank ids give no vote; a vote comes back exactly when both ids are non-blank and the row exists, and it is that row's prompt, voter, value, time and tag |
| VoteStore.GetAfterUpsert | PromptHub.Web/Infrastructure/TableStorage/Stores/TableVoteStore.cs:40-57 | reading a vote right after upserting it returns the vote written, under the fresh tag |
| VoteStore.UpsertLeavesOthers | PromptHub.Web/Infrastructure/TableStorage/Stores/TableVoteStore.cs:44-54 | upserting one voter's vote leaves every other (prompt, voter) vote as it was |
| VoteStore.TableVoteStore.constructor | PromptHub.Web/Infrastructure/TableStorage/Stores/TableVoteStore.cs:15 | the store holds the table it is given |
| VoteStore.TableVoteStore.GetVote | PromptHub.Web/Infrastructure/TableStorage/Stores/TableVoteStore.cs:18-37 | returns `VoteOf` of the current state |
| VoteStore.TableVoteStore.UpsertVote | PromptHub.Web/Infrastructure/TableStorage/Stores/TableVoteStore.cs:40-57 | a failed call changes nothing; otherwise the voter's row is replaced and the vote echoed |
| AggregateStore.NextCountAsWritten | PromptHub.Web/Infrastructure/TableStorage/Stores/TablePromptVoteAggregateStore.cs:49-50 | the count as the source computes it is never negative |
| AggregateStore.LikeAtMaxWrapsToZero | PromptHub.Web/Infrastructure/TableStorage/Stores/TablePromptVoteAggregateStore.cs:49 | one more like at Int32.MaxValue resets the count to zero |
| AggregateStore.NextCount | PromptHub.Web/Infrastructure/TableStorage/Stores/TablePromptVoteAggregateStore.cs:49-50 | the intended count: zero when the sum is not positive, the sum when it fits, Int32.MaxValue above |
| AggregateStore.NextCountAgreesWithoutOverflow | PromptHub.Web/Infrastructure/TableStorage/Stores/TablePromptVoteAggregateStore.cs:49-50 | away from the Int32 edge NextCount is what the source computes |
| AggregateStore.NextCountSaturates | PromptHub.Web/Infrastructure/TableStorage/Stores/TablePromptVoteAggregateStore.cs:49 | at the edge NextCount saturates where the source resets |
| AggregateStore.MirrorRow | PromptHub.Web/Infrastructure/TableStorage/Stores/TablePromptVoteAggregateStore.cs:64-81 | the mirror sits at the row's month partition and descending-ticks key, copies the row's id, author, title, normalized title, tags and timestamps, and carries the new counts |
| AggregateStore.Handle | PromptHub.Web/Infrastructure/TableStorage/Stores/TablePromptVoteAggregateStore.cs:88-96 | 412 and 409 are caught with the tables unchanged; every other status fails with that status |
| AggregateStore.WritePhase | PromptHub.Web/Infrastructure/TableStorage/Stores/TablePromptVoteAggregateStore.cs:56-86 | the write phase of one attempt keeps both tables valid, whether it ends or is retried |
| AggregateStore.Step | PromptHub.Web/Infrastructure/TableStorage/Stores/TablePromptVoteAggregateStore.cs:41-96 | one attempt keeps both tables valid, whether it ends or is retried |
| AggregateStore.Attempts | PromptHub.Web/Infrastructure/TableStorage/Stores/TablePromptVoteAggregateStore.cs:39-97 | the retry loop keeps both tables valid whatever each attempt meets |
| AggregateStore.DeltaOutcome | PromptHub.Web/Infrastructure/TableStorage/Stores/TablePromptVoteAggregateStore.cs:24-100 | applying a vote delta keeps both tables valid |
| AggregateStore.Updated | PromptHub.Web/Infrastructure/TableStorage/Stores/TablePromptVoteAggregateStore.cs:49-54 | the written row carries the `NextCount` of each count and the new time, and is otherwise the row that was read |
| AggregateStore.UpdatedKeepsVisibility | PromptHub.Web/Infrastructure/TableStorage/Stores/TablePromptVoteAggregateStore.cs:52-54 | a vote update leaves the row's visibility as it was |
| AggregateStore.Interfere | PromptHub.Web/Infrastructure/TableStorage/Stores/TablePromptVoteAggregateStore.cs:41-58 | a concurrent writer keeps the table valid |
| AggregateStore.ZeroDeltaOnlyReads | PromptHub.Web/Infrastructure/TableStorage/Stores/TablePromptVoteAggregateStore.cs:31-37 | with both deltas zero nothing is written: the stored counts come back, even for a soft-deleted row, and a missing row is "Prompt not found." |
| AggregateStore.NotFoundWritesNothing | PromptHub.Web/Infrastructure/TableStorage/Stores/TablePromptVoteAggregateStore.cs:41-47 | a missing or soft-deleted row is "Prompt not found." and nothing is written |
| AggregateStore.ReadFaultNotRetried | PromptHub.Web/Infrastructure/TableStorage/Stores/TablePromptVoteAggregateStore.cs:41-56 | a failed read propagates at once, 412 and 409 included, because the read is outside the `try` |
| AggregateStore.QuietAttemptSucceeds | PromptHub.Web/Infrastructure/TableStorage/Stores/TablePromptVoteAggregateStore.cs:41-86 | an undisturbed attempt on a live row writes the clamped counts under a fresh tag, mirrors them for a public prompt, and returns them |
| AggregateStore.ConcurrentWriteRetries | PromptHub.Web/Infrastructure/TableStorage/Stores/TablePromptVoteAggregateStore.cs:58-96 | a concurrent write makes the conditional update fail with 412, writes nothing of this attempt, and the loop retries |
| AggregateStore.ConflictStep | PromptHub.Web/Infrastructure/TableStorage/Stores/TablePromptVoteAggregateStore.cs:88-96 | a conflicting attempt hands the concurrent writer's row to the next attempt, or rethrows the 412 on the last |
| AggregateStore.ConflictsThenSuccess | PromptHub.Web/Infrastructure/TableStorage/Stores/TablePromptVoteAggregateStore.cs:39-97 | after conflicts and one undisturbed attempt, the counts come from the row that attempt read, the last concurrent writer's |
| AggregateStore.ConflictsExhaust | PromptHub.Web/Infrastructure/TableStorage/Stores/TablePromptVoteAggregateStore.cs:90-93 | conflicts on every attempt rethrow the last 412; the index is untouched and the row is the last writer's |
| AggregateStore.WriteFaultPropagates | PromptHub.Web/Infrastructure/TableStorage/Stores/TablePromptVoteAggregateStore.cs:58-88 | a failed conditional update other than 412 or 409 propagates at once and writes nothing |
| AggregateStore.IndexFaultStep | PromptHub.Web/Infrastructure/TableStorage/Stores/TablePromptVoteAggregateStore.cs:58-83 | an attempt whose index upsert fails has already written the canonical row |
| AggregateStore.IndexFaultAfterWrite | PromptHub.Web/Infrastructure/TableStorage/Stores/TablePromptVoteAggregateStore.cs:83-88 | a failed index upsert other than 412 or 409 propagates after the canonical row was written |
| AggregateStore.IndexConflictReappliesDelta | PromptHub.Web/Infrastructure/TableStorage/Stores/TablePromptVoteAggregateStore.cs:58-96 | a 409 or 412 from the index upsert is caught after the canonical write, so the retry applies the delta a second time |
| AggregateStore.IndexConflictStep | PromptHub.Web/Infrastructure/TableStorage/Stores/TablePromptVoteAggregateStore.cs:83-96 | a caught index conflict hands the row this attempt wrote to the next attempt |
| AggregateStore.WritePhaseSuccess | PromptHub.Web/Infrastructure/TableStorage/Stores/TablePromptVoteAggregateStore.cs:58-86 | a successful write phase stored the row under a fresh tag and, for a public row, its mirror |
| AggregateStore.StepSuccessIsStored | PromptHub.Web/Infrastructure/TableStorage/Stores/TablePromptVoteAggregateStore.cs:41-86 | a successful attempt's counts are stored in the row and mirrored for a public prompt |
| AggregateStore.SuccessIsStored | PromptHub.Web/Infrastructure/TableStorage/Stores/TablePromptVoteAggregateStore.cs:39-97 | on success the returned counts are the ones stored, never negative, and mirrored for a public prompt |
| AggregateStore.WritePhaseCaughtKeepsIndex | PromptHub.Web/Infrastructure/TableStorage/Stores/TablePromptVoteAggregateStore.cs:58-96 | a caught write phase leaves the index as it found it |
| AggregateStore.StepCaughtKeepsIndex | PromptHub.Web/Infrastructure/TableStorage/Stores/TablePromptVoteAggregateStore.cs:41-96 | a retried attempt leaves the index as it found it |
| AggregateStore.FallbackUnreachable | PromptHub.Web/Infrastructure/TableStorage/Stores/TablePromptVoteAggregateStore.cs:90-99 | "Failed to update aggregates." is never thrown: the last attempt always returns or rethrows |
| AggregateStore.WritePhaseErrors | PromptHub.Web/Infrastructure/TableStorage/Stores/TablePromptVoteAggregateStore.cs:56-96 | the write phase ends in success or a table failure |
| AggregateStore.StepErrors | PromptHub.Web/Infrastructure/TableStorage/Stores/TablePromptVoteAggregateStore.cs:41-96 | an attempt ends in success, "Prompt not found." or a table failure |
| AggregateStore.TablePromptVoteAggregateStore.constructor | PromptHub.Web/Infrastructure/TableStorage/Stores/TablePromptVoteAggregateStore.cs:17-19 | the store holds the two tables it is given |
| AggregateStore.TablePromptVoteAggregateStore.ApplyVoteDelta | PromptHub.Web/Infrastructure/TableStorage/Stores/TablePromptVoteAggregateStore.cs:24-100 | result and new states are those of `DeltaOutcome` |
| AggregateStore.TablePromptVoteAggregateStore.TryAttempt | PromptHub.Web/Infrastructure/TableStorage/Stores/TablePromptVoteAggregateStore.cs:41-96 | one loop body: result and new states are those of `Step` |
| AggregateStore.TablePromptVoteAggregateStore.Interleave | PromptHub.Web/Infrastructure/TableStorage/Stores/TablePromptVoteAggregateStore.cs:41-58 | the prompts table becomes `Interfere` of its old state |
| AggregateStore.TablePromptVoteAggregateStore.WriteAttempt | PromptHub.Web/Infrastructure/TableStorage/Stores/TablePromptVoteAggregateStore.cs:56-86 | the `try` block: result and new states are those of `WritePhase` |
| VotingFeature.ComputeNewVote | PromptHub.Web/Application/Features/Votes/PromptVotingFeature.cs:75-83 | the same vote again withdraws it; anything else becomes the vote |
| VotingFeature.ComputeAggregateDelta | PromptHub.Web/Application/Features/Votes/PromptVotingFeature.cs:85-109 | each delta is the new vote's indicator minus the old vote's, so each lies between -1 and 1 |
| VotingFeature.TransitionTable | PromptHub.Web.UnitTests/Votes/PromptVotingFeatureTests.cs:18-23 | the six (existing, requested) rows: new vote and both deltas |
| VotingFeature.NewVoteIsNamed | PromptHub.Web/Application/Features/Votes/PromptVotingFeature.cs:43-51 | a like or dislike request leaves one of the three named votes |
| VotingFeature.DeltasCompose | PromptHub.Web/Application/Features/Votes/PromptVotingFeature.cs:85-109 | deltas from a to b and from b to c add up to the delta from a to c |
| VotingFeature.ToggleCancels | PromptHub.Web/Application/Features/Votes/PromptVotingFeature.cs:51-109 | the same request twice from no vote records and then withdraws the vote, and the deltas cancel |
| VotingFeature.Validate | PromptHub.Web/Application/Features/Votes/PromptVotingFeature.cs:23-46 | the request may proceed exactly when it is present, its ids and the voter id are not blank and it asks for like or dislike; otherwise the first failing check's argument error, naming `voterId` exactly for a blank voter |
| VotingFeature.CurrentVote | PromptHub.Web/Application/Features/Votes/PromptVotingFeature.cs:48-49 | the stored vote, or no vote when none is stored |
| VotingFeature.VoteOutcomeOf | PromptHub.Web/Application/Features/Votes/PromptVotingFeature.cs:21-73 | a vote keeps all three tables valid |
| VotingFeature.InvalidTouchesNothing | PromptHub.Web/Application/Features/Votes/PromptVotingFeature.cs:23-46 | an invalid request fails with its argument error before any table is touched |
| VotingFeature.UpsertFaultSkipsAggregate | PromptHub.Web.UnitTests/Votes/PromptVotingFeatureTests.cs:146-160 | a failed vote upsert propagates and the aggregate store is never called |
| VotingFeature.ValidVoteApplies | PromptHub.Web/Application/Features/Votes/PromptVotingFeature.cs:48-66 | the vote row holds the new vote whatever the aggregate store does; the aggregate store gets the request's author and prompt and the transition's deltas; its counts or its error are the result |
| VotingFeature.PromptVotingFeature.constructor | PromptHub.Web/Application/Features/Votes/PromptVotingFeature.cs:15-18 | the feature holds the two stores it is given |
| VotingFeature.PromptVotingFeature.Vote | PromptHub.Web/Application/Features/Votes/PromptVotingFeature.cs:21-73 | result and new states of the three tables are those of `VoteOutcomeOf` |

## Left out

- I/O is not modelled: the Azure SDK, cancellation tokens, logging and the `Task.Delay` backoff between attempts. The tables are in-memory states. `PromptsTable.QueryPartitionAsync` and the other table wrappers are stand-ins with the same observable behaviour. Creating tables is left out.
- The JSON encoding of the public-newest continuation token is not modelled, nor its invalid-token error. The token is kept as a `PublicCursor` with a bucket and an offset continuation. The author listing's token is the offset itself.
- The Azure service's cap of 1000 entities per page is not modelled. `ListMyPrompts` and `ListPublicNewest` ask for the page size they are given.
- `ListPublicNewest` does not move on to an older month when a bucket is exhausted, and neither does the source.
- `Trim` and `ToLowerInvariant` are modelled on ASCII: white space is space, tab, line feed, vertical tab, form feed and carriage return; letters are A to Z. Unicode white space and case mapping are not modelled.
- Instants are UTC ticks in the `DateTimeOffset` range; a non-zero offset is not modelled. All values come from `UtcNow` or from storage.
- A null string is modelled as the empty string where the source treats null and blank alike (`IsNullOrWhiteSpace`). A null stored tag or visibility is `None`, and a null request is `None`.
- Create, Update and UpsertVote return the `ETag` of the entity the store built itself, and the wrappers never refresh it, so the model returns no tag there.
- `AuthorEmail` is carried through as an opaque value. `PromptEntityMapper` neither reads nor writes it.
- The write and read stores' table calls fail only where the table's own conditions make them fail (409, 404, 412). Transport faults and concurrent writers are modelled only in the aggregate loop and in the vote upsert.
- AggregateStore.TablePromptVoteAggregateStore.ApplyVoteDelta: the retry loop is modelled with `NextCount`, the saturating corrected count; `NextCountAsWritten` is the count as written (see Findings).
- WriteStore.CreateKeepsIndexConsistent: requires the model's creation time to be set, or both clock readings to coincide. The source reads the clock once in the mapper and again for the index row, so with an unset creation time it can index the prompt at a key the stored row does not give. `DefaultCreatedAtSplitsKeys` shows this. The editor dialog always sets the creation time.
- WriteStore.UpdateKeepsIndexConsistent: the same clock requirement, for the same reason.
- KeyFormat.PublicNewestPartitionKey: models the month bucket in the invariant culture, which the rest of the model uses. The source formats `yyyyMM` in the server's current culture (see Findings). `PublicNewestPartitionKeyInCulture` models only cultures whose calendar is Gregorian with shifted years, such as th-TH. Calendars with other months (Hijri, Um Al-Qura) and digit substitution are not modelled.
- The UI components, the weather and counter pages, the OpenAI tag suggestions, the tag catalog and tag index stores, the title search index, and dependency-injection wiring are not part of this model.

## Findings

| source | as written | input that shows it | evidently intended | confidence | as-written member | corrected member |
|---|---|---|---|---|---|---|
| PromptHub.Web/Infrastructure/TableStorage/Stores/TablePromptVoteAggregateStore.cs:49-50 | `Math.Max(0, entity.Likes + deltaLikes)` adds in unchecked 32-bit `int` arithmetic | a prompt with `Likes = 2147483647` gets one more like: the sum wraps to -2147483648 and the clamp stores 0 | a count that never drops when a like is added (saturating at Int32.MaxValue) | not executed; reachable only at 2^31 - 1 votes | AggregateStore.NextCountAsWritten, AggregateStore.LikeAtMaxWrapsToZero | AggregateStore.NextCount, AggregateStore.NextCountSaturates |
| PromptHub.Web/Infrastructure/TableStorage/Mapping/KeyFormat.cs:47 | `$"pub\|newest\|{createdAtUtc:yyyyMM}"` formats the month bucket in the server's current culture, while the listing at PromptHub.Web/Infrastructure/TableStorage/Stores/TablePromptReadStore.cs:143 formats its start bucket in the invariant culture | on a th-TH server a prompt created in October 2025 is indexed under `pub\|newest\|256810`, but the first public listing reads `pub\|newest\|202510` and finds nothing | the bucket formatted with `CultureInfo.InvariantCulture`, as KeyFormat.cs:57 and the listing already do | not executed; needs a server with a non-Gregorian-year culture | KeyFormat.PublicNewestPartitionKeyInCulture, KeyFormat.CultureKeyMissesInvariantBucket, KeyFormat.ThaiOctober2025 | KeyFormat.PublicNewestPartitionKey, ReadStore.PublicNewestStartsNow, ReadStore.BucketPartitionOfInstant |
