# Content ranges and Google Drive page listing, in Dafny

This project models two pieces of an object-storage access library and
proves properties of them.

- `BytesContentRange` is the value that describes the `Content-Range` of a
  response: an optional start, an optional inclusive end and an optional
  total size, each a `u64`. It has builders (`with_range`, `with_size`),
  accessors (`range`, `range_inclusive`, `len`, `size`) and a parser
  (`from_str`) for the three header forms `bytes <start>-<end>/<size>`,
  `bytes <start>-<end>/*` and `bytes */<size>`. It is modelled by the
  datatype `ContentRange.BytesContentRange` and the function
  `ContentRange.Parse`. Both are pure.
  - Rust's `u64::from_str` is modelled exactly by `Decimal.ParseU64`. That
    covers the empty input, one optional leading `+`, digits only, and
    overflow past `u64::MAX`.
  - `str::strip_prefix` and `str::split` are modelled by `Text.StripPrefix`
    and `Text.Split`. `Split` keeps the empty pieces, so a string with `k`
    separators always yields `k + 1` pieces.
  - `Format` renders a well-formed value in the header grammar of the type's
    documentation. It is the reference the parser is proved against.
- `GdriveLister::next_page` fetches one page of a Google Drive folder
  listing and appends entries to a page context. The model is imperative:
  - `Gdrive.PageContext` is a class holding the context's `token`, `done`
    and `entries`.
  - `Gdrive.PathCache` is a class holding the path-to-file-id map.
  - `Gdrive.GdriveLister.NextPage` and its helper methods update both
    classes step by step, with the loop over the listed files kept as a loop.
  - Each method is proved equal to a specification function over
    `PageState` values (`NextPageSpec`, `ListedPage`, `Children`), and the
    lemmas state what one call does.
  - `Run` models a caller that keeps calling `next_page` until the listing
    is done.

Remote effects are inputs, bundled in the datatype `Gdrive.Remote`:

- the id lookup of the listed path;
- the list request, which yields a status, whether the body is empty, and
  the decoded JSON;
- the per-file stat request;
- the date parser.

`build_rel_path` is a function-typed field of the lister, because its code
is not part of this model.

One might expect a page to be all-or-nothing, and a finished listing to
receive no further entries. The code does neither:

- the folder's own entry is pushed before the body is decoded;
- children are pushed one at a time, before a later child's stat can fail;
- `next_page` itself never checks `done` before appending children.

The model follows the code. `SelfEntryKeptOnDecodeFailure`,
`ChildrenStopAtError` and `ChildrenFrame` state what a failed page leaves
behind.

## Model

| member | source | states |
|---|---|---|
| ContentRange.BytesContentRange.WithRange | src/ops/bytes_content_range.rs:59-63 | sets start and end, keeps the size; the range and inclusive range become known |
| ContentRange.BytesContentRange.WithSize | src/ops/bytes_content_range.rs:66-69 | sets the size and keeps the range |
| ContentRange.BytesContentRange.Range | src/ops/bytes_content_range.rs:72-78 | known iff both ends are; the half-open end is `end + 1`, or wraps to 0 when end is `u64::MAX` |
| ContentRange.BytesContentRange.RangeInclusive | src/ops/bytes_content_range.rs:81-87 | known iff both ends are, and then is exactly start..=end |
| ContentRange.BytesContentRange.Len | src/ops/bytes_content_range.rs:90-96 | known iff both ends are |
| ContentRange.BytesContentRange.Size | src/ops/bytes_content_range.rs:98-101 | the stored size, known exactly when it was set; a well-formed value without a size has a known range |
| ContentRange.Default | src/ops/bytes_content_range.rs:36-39 | the default value has no range, no inclusive range, no length and no size |
| ContentRange.BuildersCommute | src/ops/bytes_content_range.rs:59-69 | the two builders commute; setting the size leaves the length alone and setting the range leaves the size alone |
| ContentRange.BuildersWellFormed | src/ops/bytes_content_range.rs:36-39 | the default is not a valid content range; any builder call makes it one |
| ContentRange.LenOfOrderedRange | src/ops/bytes_content_range.rs:43-45 | a known range with start <= end (and end - start < u64::MAX) is non-empty: len = end - start + 1 >= 1, consistent with `range` and `range_inclusive` |
| ContentRange.FullRangeWraps | src/ops/bytes_content_range.rs:90-96 | for 0..=u64::MAX, the release-build arithmetic gives length 0 and range 0..0 |
| ContentRange.LenModular | src/ops/bytes_content_range.rs:90-96 | the length is end - start + 1 taken modulo 2^64 |
| ContentRange.LenOfReversedRange | src/ops/bytes_content_range.rs:90-96 | when start > end the length wraps: 0 for start = end + 1, else end - start + 1 + 2^64 |
| ContentRange.ParseField | src/ops/bytes_content_range.rs:115-120 | an integer field succeeds exactly when `u64::from_str` does, with its value; failures are InvalidInput |
| ContentRange.Parse | src/ops/bytes_content_range.rs:107-153 | every rejection is an InvalidInput error; text not starting with `bytes ` is an invalid header carrying the input; every accepted value has a known range or a known size |
| ContentRange.ParseSizeOnly | src/ops/bytes_content_range.rs:122-126 | the size-only form succeeds exactly when the size is a u64, giving an unknown range and that size; otherwise the integer error |
| ContentRange.ParseRangeAndSize | src/ops/bytes_content_range.rs:128-142 | anything but two `/`-separated parts is an invalid range; failures are InvalidInput; success gives a known range |
| ContentRange.ParseBounds | src/ops/bytes_content_range.rs:143-152 | succeeds exactly when start and end are u64s and the size is `*` or a u64; the range is start..=end and the size is known exactly when it is not `*`; failures are InvalidInput |
| ContentRange.ParseFormat | src/ops/bytes_content_range.rs:28-32 | every well-formed value, rendered in the header grammar, parses back to itself |
| ContentRange.SizeOnlyForm | src/ops/bytes_content_range.rs:122-126 | `bytes */n` yields only the size n, or the integer error of n |
| ContentRange.RangeBranch | src/ops/bytes_content_range.rs:122-128 | any other `bytes ` header goes to the range form |
| ContentRange.ShapeRejected | src/ops/bytes_content_range.rs:128-142 | without exactly one `/`, or without exactly one `-` before it, the header is rejected as an invalid range |
| ContentRange.RangeForm | src/ops/bytes_content_range.rs:128-145 | `bytes a-b/n` with plain fields is decided by parsing a, b and n |
| ContentRange.ParseBoundsOutcome | src/ops/bytes_content_range.rs:143-152 | the fields are parsed start, then end, then size; `*` leaves the size unknown; the first failing field's error is returned |
| ContentRange.ExtraSlashRejected | src/ops/bytes_content_range.rs:128-134 | a header with a second `/` is rejected |
| ContentRange.ExampleRangeUnknownSize | src/ops/bytes_content_range.rs:161-189 | `bytes 123-123/*` parses to range 123..=123 with unknown size |
| ContentRange.ExampleRangeKnownSize | src/ops/bytes_content_range.rs:161-189 | `bytes 123-123/1024` parses to range 123..=123 with size 1024 |
| ContentRange.ExampleSizeOnly | src/ops/bytes_content_range.rs:122-126 | `bytes */1024` parses to size 1024 only |
| ContentRange.ExampleNonNumericRejected | src/ops/bytes_content_range.rs:143-144 | `bytes abc-123/*` is rejected |
| ContentRange.ExampleMissingUnitRejected | src/ops/bytes_content_range.rs:108-113 | `123-123/*` is rejected |
| ContentRange.ExampleExtraSlashRejected | src/ops/bytes_content_range.rs:128-134 | `bytes 123-123/1024/5` is rejected |
| Decimal.Wrap | src/ops/bytes_content_range.rs:90-96 | u64 arithmetic wraps modulo 2^64, as in a release build |
| Decimal.ParseU64 | src/ops/bytes_content_range.rs:143-149 | `u64::from_str`: empty input is Empty; success iff an optional `+` is followed by at least one digit, only digits, and a value <= u64::MAX; the value is the decimal value |
| Decimal.Accumulate | src/ops/bytes_content_range.rs:143-149 | the digit loop fails only with InvalidDigit or PosOverflow (only PosOverflow on all-digit input); a success read only digits and never lowers the accumulator |
| Decimal.AccumulateValue | src/ops/bytes_content_range.rs:143-149 | the digit-by-digit parse with its overflow check computes the decimal value, failing exactly on a non-digit or overflow |
| Decimal.ParseToDecimal | src/ops/bytes_content_range.rs:143-149 | parsing the decimal rendering of any u64 gives it back |
| Decimal.ParsePlusToDecimal | src/ops/bytes_content_range.rs:143-149 | a leading `+` is accepted |
| Decimal.ParseRejectsOverflow | src/ops/bytes_content_range.rs:143-149 | 2^64 is rejected |
| Decimal.ParseRejectsSignOnly | src/ops/bytes_content_range.rs:143-149 | a lone `+` or `-` is rejected |
| Text.StripPrefix | src/ops/bytes_content_range.rs:108 | strips exactly when the prefix is present, and the input is the prefix followed by the rest |
| Text.Split | src/ops/bytes_content_range.rs:128 | `str::split` on a character always yields at least one piece |
| Text.SplitCount | src/ops/bytes_content_range.rs:128-129 | splitting yields one piece more than there are separators |
| Text.SplitPiecesFree | src/ops/bytes_content_range.rs:136 | no piece contains the separator |
| Text.JoinSplit | src/ops/bytes_content_range.rs:128 | joining the pieces with the separator rebuilds the input |
| Text.SplitWithout | src/ops/bytes_content_range.rs:136-137 | a string without the separator is one piece |
| Text.SplitAtFirst | src/ops/bytes_content_range.rs:136-137 | splitting at the first separator gives that prefix then the split of the rest |
| Gdrive.PathCache.Get | core/src/services/gdrive/lister.rs:138 | returns the cached id exactly when the path is cached |
| Gdrive.PathCache.Insert | core/src/services/gdrive/lister.rs:139 | maps the path to the id and changes nothing else |
| Gdrive.GdriveLister.NextPage | core/src/services/gdrive/lister.rs:59-164 | the new context, cache and result are those of `NextPageSpec` on the old state |
| Gdrive.GdriveLister.ListPage | core/src/services/gdrive/lister.rs:91-161 | for a page that came back with status 200 and a non-empty body, the new state is that of `ListedPage` |
| Gdrive.GdriveLister.AddChildren | core/src/services/gdrive/lister.rs:121-161 | the loop over the listed files leaves the state and result of `Children` |
| Gdrive.NormalName | core/src/services/gdrive/lister.rs:122-129 | a folder's name ends with `/` and is its own name or that name plus `/`; a file's name is unchanged |
| Gdrive.NormalNameSpec | core/src/services/gdrive/lister.rs:122-129 | the `/` is added exactly when a folder's name lacks it, so normalising is idempotent |
| Gdrive.ContentLengthOf | core/src/services/gdrive/lister.rs:147-151 | an absent size is no length; a size parses exactly when `u64::from_str` accepts it; otherwise Unexpected "parse content length" |
| Gdrive.LastModifiedOf | core/src/services/gdrive/lister.rs:152-156 | an absent time is no date; otherwise Ok exactly when the time parses, and then the parsed instant; else Unexpected "parse last modified time" |
| Gdrive.EntryMetadata | core/src/services/gdrive/lister.rs:144-157 | without stat the metadata is the mode alone; with stat it succeeds exactly when the stat succeeds and its size and time both parse, and then carries the mode, that length and that date |
| Gdrive.BadSizeIsUnexpected | core/src/services/gdrive/lister.rs:147-151 | a stat whose size is not a u64 makes the entry fail with Unexpected "parse content length" |
| Gdrive.ChildrenStopAtError | core/src/services/gdrive/lister.rs:145-157 | after the first failing child, later files change nothing |
| Gdrive.ChildrenFrame | core/src/services/gdrive/lister.rs:121-161 | children keep token and done, only append, append one entry per file on success, and never replace a cached id |
| Gdrive.ChildrenInOrder | core/src/services/gdrive/lister.rs:121-161 | the j-th appended entry is the j-th file, with its relative path, its mode and the metadata computed for that path; without stat it has no length or date |
| Gdrive.FirstWithKey | core/src/services/gdrive/lister.rs:131-140 | the index of the first file whose cache key is the given key, or the length if there is none |
| Gdrive.ChildrenCacheFirstWriter | core/src/services/gdrive/lister.rs:133-140 | a new key is cached with the id of the first file of the page that has it; nothing else is added |
| Gdrive.UnresolvedPathFinishes | core/src/services/gdrive/lister.rs:60-68 | an unknown folder marks the listing done and returns Ok with nothing appended |
| Gdrive.FailedRequestChangesNothing | core/src/services/gdrive/lister.rs:60-78 | a failed lookup, a failed request or a non-200 status returns an error and leaves the state unchanged |
| Gdrive.EmptyBodyFinishes | core/src/services/gdrive/lister.rs:80-84 | an empty body marks the listing done and returns Ok with nothing appended |
| Gdrive.ListedPageIs | core/src/services/gdrive/lister.rs:70-89 | a listed page is handled by `ListedPage` on its decoded body |
| Gdrive.ChildrenEntries | core/src/services/gdrive/lister.rs:121-161 | on success the entries after the start are the files in order, with their paths, modes and computed metadata |
| Gdrive.SelfEntryOk | core/src/services/gdrive/lister.rs:91-110 | a successful first page had a successful self entry |
| Gdrive.DecodedPageIs | core/src/services/gdrive/lister.rs:91-119 | a decoded page is the children loop, started after the self entry and the token update |
| Gdrive.PageEntries | core/src/services/gdrive/lister.rs:91-161 | a successful page keeps the old entries; on the first page it appends the folder itself as a DIR; then one entry per listed file, in order |
| Gdrive.PageStatsEntries | core/src/services/gdrive/lister.rs:95-157 | when a length or date is asked for, the folder entry of a first page and every child entry of a completed page carry the length and date of their own stat'ed record |
| Gdrive.CursorAdvances | core/src/services/gdrive/lister.rs:115-119 | a next-page token replaces the token; no token marks the listing done |
| Gdrive.StepOnlyAppends | core/src/services/gdrive/lister.rs:59-164 | whatever happens, entries are only appended, done stays done, and cached ids are never replaced |
| Gdrive.PageCachesFirstWriter | core/src/services/gdrive/lister.rs:133-140 | after a successful page, each new path is cached with the id of its first listing |
| Gdrive.ChildrenIgnoreStat | core/src/services/gdrive/lister.rs:86-89 | without a length or date metakey, the children loop does not depend on stat |
| Gdrive.NoStatUnlessAsked | core/src/services/gdrive/lister.rs:86-89 | without a length or date metakey, a page does not depend on stat or the date parser, and new entries carry no length or date |
| Gdrive.SelfEntryKeptOnDecodeFailure | core/src/services/gdrive/lister.rs:108-113 | the folder's own entry stays appended when the body then fails to decode |
| Gdrive.PagerCollectsEveryPage | core/src/services/gdrive/lister.rs:91-161 | calling until done over pages that all succeed collects the folder entry plus every listed file |
| Gdrive.EmptyTokenRestartsListing | core/src/services/gdrive/lister.rs:92 | an empty next-page token on a first page leaves the context looking like a first page again |

## Left out

- HTTP requests, JSON decoding, RFC 3339 date parsing and `async` are
  inputs of `Gdrive.Remote`, not modelled. `stat_file`
  (core/src/services/gdrive/lister.rs:37-50) is folded into the `stat` input.
- `build_rel_path`, `parse_error`, `GdriveCore` and the path cache's own
  code are not part of this model. `build_rel_path` is an uninterpreted
  function, and `parse_error` is an error carrying the status code.
- The path cache is a plain map: a lookup that fails, and the skipped insert
  that follows it, are not modelled. Concurrent users of the shared cache
  are not modelled either.
- Gdrive.GdriveLister.NextPage: the lookup of the listed folder's id is an
  input rather than a query of `Gdrive.PathCache`, because the real lookup
  can go remote.
- ContentRange.BytesContentRange.Len: `end - start + 1` wraps modulo 2^64
  as in a release build. The panic of a debug build on overflow is not
  modelled.
- ContentRange.BytesContentRange.Range: `end + 1` likewise wraps.
- The error message of a failing integer carries the `ParseIntError` text
  chosen by `Decimal.Describe`. Causes and context attached to errors are not
  modelled.
- `Debug`, `Clone`, `serde` derives and the `FromStr` trait plumbing are
  left out. `Parse` is the `from_str` body.
- `Format` has no counterpart in the code. It is the documented header
  grammar, written out so that the parser has a reference.
- The Ruby bindings' layer wrappers (bindings/ruby/src/layers.rs) are
  binding plumbing and are not part of this model.
- Gdrive.Run: the caller that keeps calling `next_page` belongs to the
  generic pager, which is not part of this model. `Run` is a model of it,
  with one remote answer per call.
