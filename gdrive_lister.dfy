/**
  One page of a Google Drive listing. Drive addresses files by id, the
  lister by path: each call asks Drive for the children of the listed
  folder's id, turns every child into an entry whose path is the parent
  path plus the child's name, and remembers each child's id in the shared
  path cache so that later calls can resolve it.

  The remote side is given as inputs (`Remote`): the cache's answer for
  the listed path, the list call, the per-entry stat call and the date
  parser. `build_rel_path` is not part of this model; the lister carries it
  as an uninterpreted function.
 */
module Gdrive {
  import opened Wrappers
  import opened Decimal
  import Text

  const FOLDER_MIME_TYPE: string := "application/vnd.google-apps.folder"
  const STATUS_OK: int := 200
  /** How many children the lister asks Drive for per page. */
  const PAGE_SIZE: nat := 100

  datatype Error =
    | Unexpected(message: string)   // a field of a trusted response did not parse
    | Status(code: int)             // the list call answered with a status other than 200
    | Upstream(message: string)     // an error passed through from the cache, HTTP, JSON or stat

  /** The metadata fields a caller can ask for. */
  datatype Metakey =
    | Complete | Mode | CacheControl | ContentDisposition | ContentLength
    | ContentMd5 | ContentRange | ContentType | Etag | LastModified | Version

  /** An instant, as the date parser returns it. */
  type Timestamp = int

  datatype EntryMode = FILE | DIR

  datatype Metadata = Metadata(mode: EntryMode, contentLength: Option<U64>, lastModified: Option<Timestamp>)

  datatype Entry = Entry(path: string, metadata: Metadata)

  /** A Drive file record, as the list and stat calls return it. */
  datatype GdriveFile = GdriveFile(id: string, name: string, mimeType: string, size: Option<string>, modifiedTime: Option<string>)

  /** A decoded list response. */
  datatype FileList = FileList(files: seq<GdriveFile>, nextPageToken: Option<string>)

  /** The list call's answer: its status, whether its body is empty, and the body decoded. */
  datatype ListResponse = ListResponse(status: int, bodyEmpty: bool, decoded: Result<FileList, Error>)

  /** Everything the step learns from outside. */
  datatype Remote = Remote(
    lookup: Result<Option<string>, Error>,                           // the path cache's id for the listed path
    list: (string, nat, string) -> Result<ListResponse, Error>,     // (folder id, page size, token)
    stat: string -> Result<GdriveFile, Error>,                       // stat of an entry by path
    parseTime: string -> Option<Timestamp>)                          // RFC 3339 date parsing

  /** The cursor and output of a listing, owned by the pager that drives it. */
  class PageContext {
    var token: string
    var done: bool
    var entries: seq<Entry>

    constructor ()
      ensures token == [] && !done && entries == []
    {
      token, done, entries := [], false, [];
    }
  }

  /** The backend's path-to-id map, shared by all listings of one backend. */
  class PathCache {
    var ids: map<string, string>

    constructor ()
      ensures ids == map[]
    {
      ids := map[];
    }

    method Get(path: string) returns (id: Option<string>)
      ensures id.Some? <==> path in ids
      ensures id.Some? ==> id.value == ids[path]
    {
      id := if path in ids then Some(ids[path]) else None;
    }

    method Insert(path: string, id: string)
      modifies this
      ensures ids == old(ids)[path := id]
    {
      ids := ids[path := id];
    }
  }

  /** A snapshot of what one step may change: the context and the cache. */
  datatype PageState = PageState(token: string, done: bool, entries: seq<Entry>, ids: map<string, string>)

  datatype Outcome = Outcome(state: PageState, result: Result<(), Error>)

  /** The token is empty only before the first page has been fetched. */
  predicate FirstPage(s: PageState)
  {
    s.token == [] && !s.done
  }

  /** The cursor after a decoded page: the next token if there is one, otherwise done. */
  function Advance(s: PageState, next: Option<string>): PageState
  {
    if next.Some? then s.(token := next.value) else s.(done := true)
  }

  predicate IsFolder(f: GdriveFile)
  {
    f.mimeType == FOLDER_MIME_TYPE
  }

  function ModeOf(f: GdriveFile): EntryMode
  {
    if IsFolder(f) then DIR else FILE
  }

  /** A folder's name with exactly one trailing `/`; any other name unchanged. */
  function NormalName(f: GdriveFile): (name: string)
    ensures IsFolder(f) ==> Text.EndsWith(name, '/')
    ensures IsFolder(f) ==> name == f.name || name == f.name + "/"
    ensures !IsFolder(f) ==> name == f.name
  {
    if IsFolder(f) && !Text.EndsWith(f.name, '/') then f.name + "/" else f.name
  }

  /** The slash is added only when missing, so normalising twice changes nothing. */
  lemma NormalNameSpec(f: GdriveFile)
    ensures IsFolder(f) && Text.EndsWith(f.name, '/') ==> NormalName(f) == f.name
    ensures IsFolder(f) && !Text.EndsWith(f.name, '/') ==> NormalName(f) == f.name + "/"
    ensures NormalName(f.(name := NormalName(f))) == NormalName(f)
  {
  }

  /** A `size` field of a stat result, read as a content length. */
  function ContentLengthOf(size: Option<string>): (r: Result<Option<U64>, Error>)
    ensures size.None? ==> r == Ok(None)
    ensures size.Some? ==> (r.Ok? <==> ParseU64(size.value).Ok?)
    ensures size.Some? && r.Ok? ==> r.value == Some(ParseU64(size.value).value)
    ensures r.Err? ==> r.error == Unexpected("parse content length")
  {
    match size
    case None => Ok(None)
    case Some(v) =>
      match ParseU64(v)
      case Ok(n) => Ok(Some(n))
      case Err(_) => Err(Unexpected("parse content length"))
  }

  /** A `modifiedTime` field of a stat result, read as an instant. */
  function LastModifiedOf(time: Option<string>, parseTime: string -> Option<Timestamp>): (r: Result<Option<Timestamp>, Error>)
    ensures time.None? ==> r == Ok(None)
    ensures time.Some? ==> (r.Ok? <==> parseTime(time.value).Some?)
    ensures time.Some? && r.Ok? ==> r.value == Some(parseTime(time.value).value)
    ensures r.Err? ==> r.error == Unexpected("parse last modified time")
  {
    match time
    case None => Ok(None)
    case Some(v) =>
      match parseTime(v)
      case Some(t) => Ok(Some(t))
      case None => Err(Unexpected("parse last modified time"))
  }

  /**
    The metadata of an entry at `path`: only its mode, unless the caller
    asked for a length or a date, in which case the entry is stat'ed and
    any failure, or a field that does not parse, is an error.
   */
  function EntryMetadata(mode: EntryMode, path: string, statOn: bool, remote: Remote): (r: Result<Metadata, Error>)
    ensures !statOn ==> r == Ok(Metadata(mode, None, None))
    ensures r.Ok? ==> r.value.mode == mode
    ensures statOn ==>
      (r.Ok? <==> remote.stat(path).Ok?
                  && ContentLengthOf(remote.stat(path).value.size).Ok?
                  && LastModifiedOf(remote.stat(path).value.modifiedTime, remote.parseTime).Ok?)
    ensures statOn && r.Ok? ==>
      r.value == Metadata(mode, ContentLengthOf(remote.stat(path).value.size).value,
                          LastModifiedOf(remote.stat(path).value.modifiedTime, remote.parseTime).value)
  {
    if !statOn then Ok(Metadata(mode, None, None))
    else
      match remote.stat(path)
      case Err(e) => Err(e)
      case Ok(gf) =>
        match ContentLengthOf(gf.size)
        case Err(e) => Err(e)
        case Ok(len) =>
          match LastModifiedOf(gf.modifiedTime, remote.parseTime)
          case Err(e) => Err(e)
          case Ok(time) => Ok(Metadata(mode, len, time))
  }

  /** A stat'ed size that is not a u64 makes the entry's metadata an Unexpected error. */
  lemma BadSizeIsUnexpected(mode: EntryMode, path: string, remote: Remote)
    requires remote.stat(path).Ok? && remote.stat(path).value.size.Some?
    requires ParseU64(remote.stat(path).value.size.value).Err?
    ensures EntryMetadata(mode, path, true, remote) == Err(Unexpected("parse content length"))
  {
  }

  /** The lister of one path. Nothing in it changes while a listing runs. */
  datatype GdriveLister = GdriveLister(
    path: string,
    root: string,
    metakeys: set<Metakey>,
    buildRelPath: (string, string) -> string)
  {
    /** Stat is worth a round trip only if the caller wants a length or a date. */
    predicate StatsFiles()
    {
      !(metakeys !! {ContentLength, LastModified})
    }

    /** The entry path of the listed folder itself. */
    function SelfPath(): string
    {
      buildRelPath(root, path)
    }

    /** The cache key of a child: the listed path plus the child's normalised name. */
    function ChildKey(f: GdriveFile): string
    {
      path + NormalName(f)
    }

    /** The entry path of a child. */
    function ChildPath(f: GdriveFile): string
    {
      buildRelPath(root, ChildKey(f))
    }

    /**
      `next_page`: fetch one page of the listed folder's children into
      `ctx`, recording each child's id in `cache` unless its path already
      has one.
     */
    method NextPage(ctx: PageContext, cache: PathCache, remote: Remote) returns (r: Result<(), Error>)
      modifies ctx, cache
      ensures var o := NextPageSpec(this, PageState(old(ctx.token), old(ctx.done), old(ctx.entries), old(cache.ids)), remote);
        && PageState(ctx.token, ctx.done, ctx.entries, cache.ids) == o.state
        && r == o.result
    {
      var fileId: string;
      match remote.lookup {
        case Err(e) =>
          return Err(e);
        case Ok(None) =>
          ctx.done := true;
          return Ok(());
        case Ok(Some(id)) =>
          fileId := id;
      }

      var listed := remote.list(fileId, PAGE_SIZE, ctx.token);
      if listed.Err? {
        return Err(listed.error);
      }
      var resp := listed.value;
      if resp.status != STATUS_OK {
        return Err(Status(resp.status));
      }
      // Drive answers with an empty body when the folder does not exist.
      if resp.bodyEmpty {
        ctx.done := true;
        return Ok(());
      }

      r := ListPage(ctx, cache, resp.decoded, remote);
    }

    /** The part of `next_page` after a non-empty 200 answer. */
    method ListPage(ctx: PageContext, cache: PathCache, decoded: Result<FileList, Error>, remote: Remote)
      returns (r: Result<(), Error>)
      modifies ctx, cache
      ensures var o := ListedPage(this, PageState(old(ctx.token), old(ctx.done), old(ctx.entries), old(cache.ids)), decoded, remote);
        && PageState(ctx.token, ctx.done, ctx.entries, cache.ids) == o.state
        && r == o.result
    {
      // The listed folder itself comes first, on the first page only.
      if ctx.token == [] && !ctx.done {
        var selfPath := buildRelPath(root, path);
        var md := EntryMetadata(DIR, selfPath, StatsFiles(), remote);
        if md.Err? {
          return Err(md.error);
        }
        ctx.entries := ctx.entries + [Entry(selfPath, md.value)];
      }

      if decoded.Err? {
        return Err(decoded.error);
      }
      match decoded.value.nextPageToken {
        case Some(next) => ctx.token := next;
        case None => ctx.done := true;
      }
      r := AddChildren(ctx, cache, decoded.value.files, remote);
    }

    /** The loop of `next_page` over the children of one page, in response order. */
    method AddChildren(ctx: PageContext, cache: PathCache, files: seq<GdriveFile>, remote: Remote)
      returns (r: Result<(), Error>)
      modifies ctx, cache
      ensures var o := Children(this, PageState(old(ctx.token), old(ctx.done), old(ctx.entries), old(cache.ids)), files, remote);
        && PageState(ctx.token, ctx.done, ctx.entries, cache.ids) == o.state
        && r == o.result
    {
      var statOn := StatsFiles();
      ghost var start := PageState(ctx.token, ctx.done, ctx.entries, cache.ids);
      for i := 0 to |files|
        invariant Children(this, start, files[..i], remote) == Outcome(PageState(ctx.token, ctx.done, ctx.entries, cache.ids), Ok(()))
      {
        ghost var before := PageState(ctx.token, ctx.done, ctx.entries, cache.ids);
        var file := files[i];
        var name := file.name;
        var mode: EntryMode;
        if file.mimeType == FOLDER_MIME_TYPE {
          if !Text.EndsWith(name, '/') {
            name := name + "/";
          }
          mode := DIR;
        } else {
          mode := FILE;
        }
        assert name == NormalName(file) && mode == ModeOf(file);

        var key := path + name;
        // Only a path without an id is cached: Drive can list one id under two
        // names (a converted document and its original), and the first stays.
        var known := cache.Get(key);
        if known.None? {
          cache.Insert(key, file.id);
        }

        var entryPath := buildRelPath(root, key);
        var md := EntryMetadata(mode, entryPath, statOn, remote);
        ChildrenStep(this, start, files, i, remote);
        if md.Err? {
          assert Children(this, start, files[..i + 1], remote) == Outcome(PageState(ctx.token, ctx.done, ctx.entries, cache.ids), Err(md.error));
          ChildrenStopAtError(this, start, files, i + 1, remote);
          return Err(md.error);
        }
        ctx.entries := ctx.entries + [Entry(entryPath, md.value)];
        assert PageState(ctx.token, ctx.done, ctx.entries, cache.ids) == Child(this, before, file, remote).state;
      }
      assert files[..|files|] == files;
      r := Ok(());
    }
  }

  /** One child: cache its id if its path has none, then append its entry. */
  function Child(l: GdriveLister, s: PageState, f: GdriveFile, remote: Remote): Outcome
  {
    var key := l.ChildKey(f);
    var ids := if key in s.ids then s.ids else s.ids[key := f.id];
    match EntryMetadata(ModeOf(f), l.ChildPath(f), l.StatsFiles(), remote)
    case Err(e) => Outcome(s.(ids := ids), Err(e))
    case Ok(md) => Outcome(s.(ids := ids, entries := s.entries + [Entry(l.ChildPath(f), md)]), Ok(()))
  }

  /** The children in response order, stopping at the first error. */
  function Children(l: GdriveLister, s: PageState, files: seq<GdriveFile>, remote: Remote): Outcome
  {
    if |files| == 0 then Outcome(s, Ok(()))
    else
      var before := Children(l, s, files[..|files| - 1], remote);
      if before.result.Err? then before else Child(l, before.state, files[|files| - 1], remote)
  }

  /** A decoded page: move the cursor, then process the children. */
  function DecodedPage(l: GdriveLister, s: PageState, decoded: Result<FileList, Error>, remote: Remote): Outcome
  {
    match decoded
    case Err(e) => Outcome(s, Err(e))
    case Ok(fl) => Children(l, Advance(s, fl.nextPageToken), fl.files, remote)
  }

  /** A page with a body: the listed folder itself on the first page, then the decoded page. */
  function ListedPage(l: GdriveLister, s: PageState, decoded: Result<FileList, Error>, remote: Remote): Outcome
  {
    if FirstPage(s) then
      match EntryMetadata(DIR, l.SelfPath(), l.StatsFiles(), remote)
      case Err(e) => Outcome(s, Err(e))
      case Ok(md) => DecodedPage(l, s.(entries := s.entries + [Entry(l.SelfPath(), md)]), decoded, remote)
    else DecodedPage(l, s, decoded, remote)
  }

  /** What one `next_page` call does to the context and the cache, and what it returns. */
  function NextPageSpec(l: GdriveLister, s: PageState, remote: Remote): Outcome
  {
    match remote.lookup
    case Err(e) => Outcome(s, Err(e))
    case Ok(None) => Outcome(s.(done := true), Ok(()))
    case Ok(Some(id)) =>
      match remote.list(id, PAGE_SIZE, s.token)
      case Err(e) => Outcome(s, Err(e))
      case Ok(resp) =>
        if resp.status != STATUS_OK then Outcome(s, Err(Status(resp.status)))
        else if resp.bodyEmpty then Outcome(s.(done := true), Ok(()))
        else ListedPage(l, s, resp.decoded, remote)
  }

  /** One more child: the children up to `i` inclusive are those before it, then child `i`. */
  lemma ChildrenStep(l: GdriveLister, s: PageState, files: seq<GdriveFile>, i: nat, remote: Remote)
    requires i < |files|
    requires Children(l, s, files[..i], remote).result.Ok?
    ensures Children(l, s, files[..i + 1], remote) == Child(l, Children(l, s, files[..i], remote).state, files[i], remote)
  {
    assert files[..i + 1][..i] == files[..i];
  }

  /** Once a child fails, the rest of the page is not processed. */
  lemma {:induction false} ChildrenStopAtError(l: GdriveLister, s: PageState, files: seq<GdriveFile>, k: nat, remote: Remote)
    requires k <= |files|
    requires Children(l, s, files[..k], remote).result.Err?
    ensures Children(l, s, files, remote) == Children(l, s, files[..k], remote)
    decreases |files|
  {
    if k < |files| {
      var init := files[..|files| - 1];
      assert init[..k] == files[..k];
      ChildrenStopAtError(l, s, init, k, remote);
    } else {
      assert files[..k] == files;
    }
  }

  // ---------------------------------------------------------------------
  // The children of one page

  /** Processing children never moves the cursor, only appends, and never changes a cached id. */
  lemma {:induction false} ChildrenFrame(l: GdriveLister, s: PageState, files: seq<GdriveFile>, remote: Remote)
    ensures var o := Children(l, s, files, remote);
      && o.state.token == s.token && o.state.done == s.done
      && |s.entries| <= |o.state.entries| <= |s.entries| + |files|
      && o.state.entries[..|s.entries|] == s.entries
      && (o.result.Ok? ==> |o.state.entries| == |s.entries| + |files|)
      && (forall key :: key in s.ids ==> key in o.state.ids && o.state.ids[key] == s.ids[key])
    decreases |files|
  {
    if |files| > 0 {
      var init := files[..|files| - 1];
      ChildrenFrame(l, s, init, remote);
      var before := Children(l, s, init, remote);
      assert before.state.entries[..|s.entries|] == s.entries;
      if before.result.Ok? {
        var o := Child(l, before.state, files[|files| - 1], remote);
        assert o.state.entries[..|before.state.entries|] == before.state.entries;
        assert o.state.entries[..|s.entries|] == before.state.entries[..|s.entries|];
      }
    }
  }

  /**
    The entries a page appends are its children in response order: the
    j-th appended entry has the j-th child's path and mode, and carries a
    length or a date only when the caller asked for one.
   */
  lemma {:induction false} ChildrenInOrder(l: GdriveLister, s: PageState, files: seq<GdriveFile>, remote: Remote)
    ensures var o := Children(l, s, files, remote);
      forall j :: |s.entries| <= j < |o.state.entries| ==>
        && j - |s.entries| < |files|
        && o.state.entries[j].path == l.ChildPath(files[j - |s.entries|])
        && o.state.entries[j].metadata.mode == ModeOf(files[j - |s.entries|])
        && (!l.StatsFiles() ==> o.state.entries[j].metadata == Metadata(ModeOf(files[j - |s.entries|]), None, None))
        && EntryMetadata(ModeOf(files[j - |s.entries|]), l.ChildPath(files[j - |s.entries|]), l.StatsFiles(), remote).Ok?
        && o.state.entries[j].metadata ==
             EntryMetadata(ModeOf(files[j - |s.entries|]), l.ChildPath(files[j - |s.entries|]), l.StatsFiles(), remote).value
    decreases |files|
  {
    if |files| > 0 {
      var init := files[..|files| - 1];
      ChildrenInOrder(l, s, init, remote);
      ChildrenFrame(l, s, init, remote);
      var before := Children(l, s, init, remote);
      if before.result.Ok? {
        var o := Child(l, before.state, files[|files| - 1], remote);
        assert o.state.entries[..|before.state.entries|] == before.state.entries;
        forall j | |s.entries| <= j < |o.state.entries|
          ensures o.state.entries[j].path == l.ChildPath(files[j - |s.entries|])
          ensures o.state.entries[j].metadata.mode == ModeOf(files[j - |s.entries|])
          ensures !l.StatsFiles() ==> o.state.entries[j].metadata == Metadata(ModeOf(files[j - |s.entries|]), None, None)
          ensures EntryMetadata(ModeOf(files[j - |s.entries|]), l.ChildPath(files[j - |s.entries|]), l.StatsFiles(), remote).Ok?
          ensures o.state.entries[j].metadata ==
                    EntryMetadata(ModeOf(files[j - |s.entries|]), l.ChildPath(files[j - |s.entries|]), l.StatsFiles(), remote).value
        {
          if j < |before.state.entries| {
            assert o.state.entries[j] == before.state.entries[j];
            assert files[j - |s.entries|] == init[j - |s.entries|];
          }
        }
      }
    }
  }

  /**
    The index of the first child, in response order, whose cache key is
    `key`; `|files|` when there is none.
   */
  function FirstWithKey(l: GdriveLister, files: seq<GdriveFile>, key: string): (j: nat)
    ensures j <= |files|
    ensures j < |files| ==> l.ChildKey(files[j]) == key
    ensures forall i :: 0 <= i < j ==> l.ChildKey(files[i]) != key
  {
    if |files| == 0 then 0
    else
      var j := FirstWithKey(l, files[..|files| - 1], key);
      if j < |files| - 1 then j
      else if l.ChildKey(files[|files| - 1]) == key then |files| - 1
      else |files|
  }

  /**
    After a page is processed the cache holds its old keys and every
    child's key, and a key it did not hold before maps to the id of the
    FIRST child listed under it: later children with the same key never
    replace it.
   */
  lemma {:induction false} ChildrenCacheFirstWriter(l: GdriveLister, s: PageState, files: seq<GdriveFile>, remote: Remote)
    requires Children(l, s, files, remote).result.Ok?
    ensures var ids := Children(l, s, files, remote).state.ids;
      && (forall key :: key in ids <==> key in s.ids || FirstWithKey(l, files, key) < |files|)
      && (forall key :: key !in s.ids && FirstWithKey(l, files, key) < |files| ==>
            ids[key] == files[FirstWithKey(l, files, key)].id)
    decreases |files|
  {
    if |files| > 0 {
      var n := |files|;
      var init := files[..n - 1];
      var before := Children(l, s, init, remote);
      assert before.result.Ok?;
      ChildrenCacheFirstWriter(l, s, init, remote);
      var last := files[n - 1];
      var ids := Children(l, s, files, remote).state.ids;
      assert ids == if l.ChildKey(last) in before.state.ids then before.state.ids
                    else before.state.ids[l.ChildKey(last) := last.id];
      forall key
        ensures key in ids <==> key in s.ids || FirstWithKey(l, files, key) < n
        ensures key !in s.ids && FirstWithKey(l, files, key) < n ==> ids[key] == files[FirstWithKey(l, files, key)].id
      {
        var j := FirstWithKey(l, init, key);
        if j < n - 1 {
          assert files[j] == init[j];
        }
      }
    }
  }

  // ---------------------------------------------------------------------
  // One call of next_page

  /** The list call for the current token succeeded with a 200, a body, and a decodable page `fl`. */
  predicate Listed(s: PageState, remote: Remote, fl: FileList)
  {
    && remote.lookup.Ok? && remote.lookup.value.Some?
    && var answer := remote.list(remote.lookup.value.value, PAGE_SIZE, s.token);
    && answer.Ok?
    && answer.value.status == STATUS_OK
    && !answer.value.bodyEmpty
    && answer.value.decoded == Ok(fl)
  }

  /** A listed path without an id ends the listing at once, with no entries and the token untouched. */
  lemma UnresolvedPathFinishes(l: GdriveLister, s: PageState, remote: Remote)
    requires remote.lookup == Ok(None)
    ensures NextPageSpec(l, s, remote) == Outcome(s.(done := true), Ok(()))
  {
  }

  /**
    A failed lookup, a failed list call or a status other than 200 is an
    error and leaves the context and the cache as they were.
   */
  lemma FailedRequestChangesNothing(l: GdriveLister, s: PageState, remote: Remote)
    requires remote.lookup.Err? || (remote.lookup.value.Some? &&
      (remote.list(remote.lookup.value.value, PAGE_SIZE, s.token).Err? ||
       remote.list(remote.lookup.value.value, PAGE_SIZE, s.token).value.status != STATUS_OK))
    ensures NextPageSpec(l, s, remote).state == s
    ensures NextPageSpec(l, s, remote).result.Err?
  {
  }

  /** A 200 with an empty body means the folder is gone: done, with no entries. */
  lemma EmptyBodyFinishes(l: GdriveLister, s: PageState, remote: Remote)
    requires remote.lookup.Ok? && remote.lookup.value.Some?
    requires remote.list(remote.lookup.value.value, PAGE_SIZE, s.token).Ok?
    requires remote.list(remote.lookup.value.value, PAGE_SIZE, s.token).value.status == STATUS_OK
    requires remote.list(remote.lookup.value.value, PAGE_SIZE, s.token).value.bodyEmpty
    ensures NextPageSpec(l, s, remote) == Outcome(s.(done := true), Ok(()))
  {
  }

  /** The outcome of a decoded page, with the self-entry (if any) already appended. */
  lemma ListedPageIs(l: GdriveLister, s: PageState, remote: Remote, fl: FileList)
    requires Listed(s, remote, fl)
    ensures NextPageSpec(l, s, remote) == ListedPage(l, s, Ok(fl), remote)
  {
  }

  /** The children of a completed page, by index. */
  lemma ChildrenEntries(l: GdriveLister, a: PageState, files: seq<GdriveFile>, remote: Remote)
    requires Children(l, a, files, remote).result.Ok?
    ensures var o := Children(l, a, files, remote).state;
      && |o.entries| == |a.entries| + |files|
      && o.entries[..|a.entries|] == a.entries
      && (forall j :: 0 <= j < |files| ==>
            && o.entries[|a.entries| + j].path == l.ChildPath(files[j])
            && o.entries[|a.entries| + j].metadata.mode == ModeOf(files[j])
            && EntryMetadata(ModeOf(files[j]), l.ChildPath(files[j]), l.StatsFiles(), remote).Ok?
            && o.entries[|a.entries| + j].metadata == EntryMetadata(ModeOf(files[j]), l.ChildPath(files[j]), l.StatsFiles(), remote).value)
  {
    ChildrenFrame(l, a, files, remote);
    ChildrenInOrder(l, a, files, remote);
    var o := Children(l, a, files, remote).state;
    forall j | 0 <= j < |files|
      ensures o.entries[|a.entries| + j].path == l.ChildPath(files[j])
      ensures o.entries[|a.entries| + j].metadata.mode == ModeOf(files[j])
      ensures EntryMetadata(ModeOf(files[j]), l.ChildPath(files[j]), l.StatsFiles(), remote).Ok?
      ensures o.entries[|a.entries| + j].metadata == EntryMetadata(ModeOf(files[j]), l.ChildPath(files[j]), l.StatsFiles(), remote).value
    {
      assert (|a.entries| + j) - |a.entries| == j;
    }
  }

  /** The state a decoded page's children start from: the self-entry appended on the first page, the cursor moved. */
  function ChildrenStart(l: GdriveLister, s: PageState, remote: Remote, fl: FileList): PageState
    requires FirstPage(s) ==> EntryMetadata(DIR, l.SelfPath(), l.StatsFiles(), remote).Ok?
  {
    var s1 := if FirstPage(s) then
                s.(entries := s.entries + [Entry(l.SelfPath(), EntryMetadata(DIR, l.SelfPath(), l.StatsFiles(), remote).value)])
              else s;
    Advance(s1, fl.nextPageToken)
  }

  /** A page that completes had its self-entry's metadata, if it needed one. */
  lemma SelfEntryOk(l: GdriveLister, s: PageState, remote: Remote, fl: FileList)
    requires Listed(s, remote, fl)
    requires NextPageSpec(l, s, remote).result.Ok?
    ensures FirstPage(s) ==> EntryMetadata(DIR, l.SelfPath(), l.StatsFiles(), remote).Ok?
  {
    ListedPageIs(l, s, remote, fl);
  }

  lemma DecodedPageIs(l: GdriveLister, s: PageState, remote: Remote, fl: FileList)
    requires Listed(s, remote, fl)
    requires FirstPage(s) ==> EntryMetadata(DIR, l.SelfPath(), l.StatsFiles(), remote).Ok?
    ensures NextPageSpec(l, s, remote) == Children(l, ChildrenStart(l, s, remote, fl), fl.files, remote)
  {
    ListedPageIs(l, s, remote, fl);
  }

  /**
    A page that completes: the listed folder itself first (first page
    only), then one entry per child in response order, with the child's
    path and mode; nothing before is touched.
   */
  lemma {:induction false} PageEntries(l: GdriveLister, s: PageState, remote: Remote, fl: FileList)
    requires Listed(s, remote, fl)
    requires NextPageSpec(l, s, remote).result.Ok?
    ensures var o := NextPageSpec(l, s, remote).state;
      var base := |s.entries| + (if FirstPage(s) then 1 else 0);
      && |o.entries| == base + |fl.files|
      && o.entries[..|s.entries|] == s.entries
      && (FirstPage(s) ==> o.entries[|s.entries|].path == l.SelfPath() && o.entries[|s.entries|].metadata.mode == DIR)
      && (forall j :: 0 <= j < |fl.files| ==>
            o.entries[base + j].path == l.ChildPath(fl.files[j]) && o.entries[base + j].metadata.mode == ModeOf(fl.files[j]))
  {
    SelfEntryOk(l, s, remote, fl);
    DecodedPageIs(l, s, remote, fl);
    var a := ChildrenStart(l, s, remote, fl);
    ChildrenEntries(l, a, fl.files, remote);
    var o := Children(l, a, fl.files, remote).state;
    assert o.entries[..|s.entries|] == a.entries[..|s.entries|];
    if FirstPage(s) {
      assert o.entries[|s.entries|] == a.entries[|s.entries|];
    }
  }

  /** `e` carries `mode` and the length and date of the stat'ed record at `path`, both parsed. */
  predicate StatedAs(e: Entry, mode: EntryMode, path: string, remote: Remote)
  {
    && remote.stat(path).Ok?
    && var gf := remote.stat(path).value;
    && ContentLengthOf(gf.size).Ok?
    && LastModifiedOf(gf.modifiedTime, remote.parseTime).Ok?
    && e.metadata == Metadata(mode, ContentLengthOf(gf.size).value, LastModifiedOf(gf.modifiedTime, remote.parseTime).value)
  }

  /**
    When the caller asked for a length or a date, every entry of a
    completed page carries the length and date of its own stat'ed record:
    the folder itself on the first page, then each child at its rel-path.
   */
  lemma {:induction false} PageStatsEntries(l: GdriveLister, s: PageState, remote: Remote, fl: FileList)
    requires Listed(s, remote, fl)
    requires NextPageSpec(l, s, remote).result.Ok?
    requires l.StatsFiles()
    ensures var o := NextPageSpec(l, s, remote).state;
      var base := |s.entries| + (if FirstPage(s) then 1 else 0);
      && |o.entries| == base + |fl.files|
      && (FirstPage(s) ==> StatedAs(o.entries[|s.entries|], DIR, l.SelfPath(), remote))
      && (forall j :: 0 <= j < |fl.files| ==>
            StatedAs(o.entries[base + j], ModeOf(fl.files[j]), l.ChildPath(fl.files[j]), remote))
  {
    PageEntries(l, s, remote, fl);
    SelfEntryOk(l, s, remote, fl);
    DecodedPageIs(l, s, remote, fl);
    var a := ChildrenStart(l, s, remote, fl);
    ChildrenEntries(l, a, fl.files, remote);
    var o := Children(l, a, fl.files, remote).state;
    if FirstPage(s) {
      assert o.entries[..|a.entries|] == a.entries;
      assert o.entries[|s.entries|] == a.entries[|s.entries|];
    }
  }

  /**
    Once the page is decoded, a next-page token becomes the context's
    token and leaves `done` as it was; without one the listing is done and
    the token stays. This holds even if a child fails afterwards.
   */
  lemma {:induction false} CursorAdvances(l: GdriveLister, s: PageState, remote: Remote, fl: FileList)
    requires Listed(s, remote, fl)
    requires FirstPage(s) ==> EntryMetadata(DIR, l.SelfPath(), l.StatsFiles(), remote).Ok?
    ensures var o := NextPageSpec(l, s, remote).state;
      && (fl.nextPageToken.Some? ==> o.token == fl.nextPageToken.value && o.done == s.done)
      && (fl.nextPageToken.None? ==> o.done && o.token == s.token)
  {
    DecodedPageIs(l, s, remote, fl);
    ChildrenFrame(l, ChildrenStart(l, s, remote, fl), fl.files, remote);
  }

  /**
    Whatever happens, entries are only appended, a finished listing stays
    finished, and an id already in the cache is never replaced.
   */
  lemma {:induction false} StepOnlyAppends(l: GdriveLister, s: PageState, remote: Remote)
    ensures var o := NextPageSpec(l, s, remote).state;
      && |s.entries| <= |o.entries|
      && o.entries[..|s.entries|] == s.entries
      && (s.done ==> o.done)
      && (forall key :: key in s.ids ==> key in o.ids && o.ids[key] == s.ids[key])
  {
    if remote.lookup.Ok? && remote.lookup.value.Some? {
      var answer := remote.list(remote.lookup.value.value, PAGE_SIZE, s.token);
      if answer.Ok? && answer.value.status == STATUS_OK && !answer.value.bodyEmpty {
        var decoded := answer.value.decoded;
        var s1 := s;
        if FirstPage(s) {
          var md := EntryMetadata(DIR, l.SelfPath(), l.StatsFiles(), remote);
          if md.Ok? {
            s1 := s.(entries := s.entries + [Entry(l.SelfPath(), md.value)]);
          }
        }
        if decoded.Ok? {
          var a := Advance(s1, decoded.value.nextPageToken);
          ChildrenFrame(l, a, decoded.value.files, remote);
          var o := NextPageSpec(l, s, remote).state;
          assert o.entries[..|a.entries|] == a.entries;
          assert o.entries[..|s.entries|] == a.entries[..|s.entries|];
        }
      }
    }
  }

  /**
    A completed page caches every child's key; a key that was new maps to
    the first child listed under it.
   */
  lemma {:induction false} PageCachesFirstWriter(l: GdriveLister, s: PageState, remote: Remote, fl: FileList)
    requires Listed(s, remote, fl)
    requires NextPageSpec(l, s, remote).result.Ok?
    ensures var ids := NextPageSpec(l, s, remote).state.ids;
      && (forall key :: key in ids <==> key in s.ids || FirstWithKey(l, fl.files, key) < |fl.files|)
      && (forall key :: key in s.ids ==> ids[key] == s.ids[key])
      && (forall key :: key !in s.ids && FirstWithKey(l, fl.files, key) < |fl.files| ==>
            ids[key] == fl.files[FirstWithKey(l, fl.files, key)].id)
  {
    SelfEntryOk(l, s, remote, fl);
    DecodedPageIs(l, s, remote, fl);
    var a := ChildrenStart(l, s, remote, fl);
    ChildrenFrame(l, a, fl.files, remote);
    ChildrenCacheFirstWriter(l, a, fl.files, remote);
  }

  /**
    Unless a length or a date was asked for, stat is never consulted: the
    step does the same whatever stat and the date parser would answer, and
    every new entry carries its mode only.
   */
  lemma {:induction false} ChildrenIgnoreStat(l: GdriveLister, s: PageState, files: seq<GdriveFile>, remote: Remote, other: Remote)
    requires !l.StatsFiles()
    ensures Children(l, s, files, remote) == Children(l, s, files, other)
    decreases |files|
  {
    if |files| > 0 {
      ChildrenIgnoreStat(l, s, files[..|files| - 1], remote, other);
    }
  }

  lemma {:induction false} NoStatUnlessAsked(l: GdriveLister, s: PageState, remote: Remote,
                                             stat: string -> Result<GdriveFile, Error>, parseTime: string -> Option<Timestamp>)
    requires !l.StatsFiles()
    ensures NextPageSpec(l, s, remote) == NextPageSpec(l, s, remote.(stat := stat, parseTime := parseTime))
    ensures var o := NextPageSpec(l, s, remote).state;
      forall j :: |s.entries| <= j < |o.entries| ==>
        o.entries[j].metadata.contentLength.None? && o.entries[j].metadata.lastModified.None?
  {
    var other := remote.(stat := stat, parseTime := parseTime);
    if remote.lookup.Ok? && remote.lookup.value.Some? {
      var answer := remote.list(remote.lookup.value.value, PAGE_SIZE, s.token);
      if answer.Ok? && answer.value.status == STATUS_OK && !answer.value.bodyEmpty {
        var decoded := answer.value.decoded;
        var s1 := if FirstPage(s) then s.(entries := s.entries + [Entry(l.SelfPath(), Metadata(DIR, None, None))]) else s;
        if decoded.Ok? {
          var a := Advance(s1, decoded.value.nextPageToken);
          ChildrenIgnoreStat(l, a, decoded.value.files, remote, other);
          ChildrenInOrder(l, a, decoded.value.files, remote);
          ChildrenFrame(l, a, decoded.value.files, remote);
        }
      }
    }
  }

  /**
    Pages are not all-or-nothing: on the first page the listed folder's
    own entry stays in the context when the body then fails to decode.
   */
  lemma SelfEntryKeptOnDecodeFailure(l: GdriveLister, s: PageState, remote: Remote, e: Error)
    requires remote.lookup.Ok? && remote.lookup.value.Some?
    requires remote.list(remote.lookup.value.value, PAGE_SIZE, s.token).Ok?
    requires remote.list(remote.lookup.value.value, PAGE_SIZE, s.token).value.status == STATUS_OK
    requires !remote.list(remote.lookup.value.value, PAGE_SIZE, s.token).value.bodyEmpty
    requires remote.list(remote.lookup.value.value, PAGE_SIZE, s.token).value.decoded == Err(e)
    requires FirstPage(s) && EntryMetadata(DIR, l.SelfPath(), l.StatsFiles(), remote).Ok?
    ensures NextPageSpec(l, s, remote) ==
      Outcome(s.(entries := s.entries + [Entry(l.SelfPath(), EntryMetadata(DIR, l.SelfPath(), l.StatsFiles(), remote).value)]), Err(e))
  {
  }

  // ---------------------------------------------------------------------
  // A pager driving next_page

  /**
    The pager outside this module: it calls `next_page` once per remote
    answer in turn, until the context is done or a call fails.
   */
  function Run(l: GdriveLister, s: PageState, remotes: seq<Remote>): Outcome
    decreases |remotes|
  {
    if |remotes| == 0 || s.done then Outcome(s, Ok(()))
    else
      var o := NextPageSpec(l, s, remotes[0]);
      if o.result.Err? then o else Run(l, o.state, remotes[1..])
  }

  function SumFiles(fls: seq<FileList>): nat
  {
    if |fls| == 0 then 0 else |fls[0].files| + SumFiles(fls[1..])
  }

  /**
    Every call the pager makes finds the listed folder, gets page `fls[k]`
    and completes, and every page but the last hands back a non-empty
    token.
   */
  predicate PagesListed(l: GdriveLister, s: PageState, remotes: seq<Remote>, fls: seq<FileList>)
    decreases |remotes|
  {
    && |remotes| == |fls|
    && (|remotes| > 0 ==>
          && !s.done
          && Listed(s, remotes[0], fls[0])
          && NextPageSpec(l, s, remotes[0]).result.Ok?
          && (|remotes| == 1 <==> fls[0].nextPageToken.None?)
          && fls[0].nextPageToken != Some([])
          && PagesListed(l, NextPageSpec(l, s, remotes[0]).state, remotes[1..], fls[1..]))
  }

  /**
    Driven over a chain of pages that ends without a token, the pager
    stops with the context done, having collected the listed folder once
    (if it started on the first page) and every child of every page.
   */
  lemma {:induction false} PagerCollectsEveryPage(l: GdriveLister, s: PageState, remotes: seq<Remote>, fls: seq<FileList>)
    requires PagesListed(l, s, remotes, fls)
    requires |remotes| > 0
    ensures var o := Run(l, s, remotes);
      && o.result.Ok?
      && o.state.done
      && |o.state.entries| == |s.entries| + (if FirstPage(s) then 1 else 0) + SumFiles(fls)
    decreases |remotes|
  {
    var o1 := NextPageSpec(l, s, remotes[0]);
    PageEntries(l, s, remotes[0], fls[0]);
    SelfEntryOk(l, s, remotes[0], fls[0]);
    CursorAdvances(l, s, remotes[0], fls[0]);
    if |remotes| > 1 {
      assert !FirstPage(o1.state);
      PagerCollectsEveryPage(l, o1.state, remotes[1..], fls[1..]);
    } else {
      assert fls[1..] == [];
    }
  }

  /**
    A page token that is the empty string is not told apart from the
    start of a listing: the next call counts as a first page again and
    emits the listed folder a second time.
   */
  lemma EmptyTokenRestartsListing(l: GdriveLister, s: PageState, remote: Remote, fl: FileList)
    requires Listed(s, remote, fl) && FirstPage(s)
    requires EntryMetadata(DIR, l.SelfPath(), l.StatsFiles(), remote).Ok?
    requires fl.nextPageToken == Some([])
    ensures FirstPage(NextPageSpec(l, s, remote).state)
  {
    CursorAdvances(l, s, remote, fl);
  }
}
