/** The fan-out log of src/dac.ts as functions of the store's documents: what
    `fetchIndex` and `fetchPage` return, how `toPersistence` stamps and bounds
    an entry, how `updateIndex` rotates pages, which writes one
    `handleNewEntry` issues, and the dictionary `registerSkappName` stores.
    The class in module Dac performs these steps on a store; the lemmas in
    module LogState prove what they preserve. */
module Fanout {
  import opened Strings
  import opened Records
  import opened Paths
  import opened KeyValue

  const ENTRY_MAX_SIZE: nat := 4096  // 1 << 12 bytes
  const INDEX_DEFAULT_PAGE_SIZE: nat := 1000
  const INDEX_VERSION: int := 1

  type Files = map<string, Doc>

  /** `fetchIndex`: the stored index of the log, or a fresh one whose only
      page is page 0. */
  function LoadIndex(files: Files, paths: FilePaths, kind: EntryType): (r: Result<Index>)
    ensures IndexPath(paths, kind) !in files ==>
      r.Ok? && r.value.version == INDEX_VERSION && r.value.pageSize == INDEX_DEFAULT_PAGE_SIZE
      && r.value.currPageNumber == 0 && r.value.currPageNumEntries == 0
      && r.value.pages == [ReplaceFirst(PageTemplate(paths, kind), PAGE_REF, "0")]
    ensures IndexPath(paths, kind) in files ==>
      (r.Ok? <==> files[IndexPath(paths, kind)].IndexDoc?)
      && (r.Ok? ==> r.value == files[IndexPath(paths, kind)].index)
    ensures r.Err? ==> r.error == Malformed(IndexPath(paths, kind))
  {
    var ip := IndexPath(paths, kind);
    if ip !in files then
      Ok(Index(INDEX_VERSION, 0, 0, [PagePath(paths, kind, 0)], INDEX_DEFAULT_PAGE_SIZE))
    else match files[ip]
      case IndexDoc(ix) => Ok(ix)
      case _ => Err(Malformed(ip))
  }

  /** `fetchPage`: the stored page the index names as current, or an empty
      one pointing back to the index and to its own key. */
  function LoadPage(files: Files, paths: FilePaths, kind: EntryType, index: Index): (r: Result<Page>)
    ensures var pp := PagePath(paths, kind, index.currPageNumber);
      pp !in files ==>
        r.Ok? && r.value.version == INDEX_VERSION && r.value.indexPath == IndexPath(paths, kind)
        && r.value.pagePath == pp && r.value.entries == []
    ensures var pp := PagePath(paths, kind, index.currPageNumber);
      pp in files ==> (r.Ok? <==> files[pp].PageDoc?) && (r.Ok? ==> r.value == files[pp].page)
    ensures r.Err? ==> r.error == Malformed(PagePath(paths, kind, index.currPageNumber))
  {
    var pp := PagePath(paths, kind, index.currPageNumber);
    if pp !in files then
      Ok(Page(INDEX_VERSION, IndexPath(paths, kind), pp, []))
    else match files[pp]
      case PageDoc(pg) => Ok(pg)
      case _ => Err(Malformed(pp))
  }

  /** `toPersistence`: the caller's fields stamped with the time in whole
      seconds, refused when the serialised entry exceeds `ENTRY_MAX_SIZE`
      bytes. `serialize` stands for `Buffer.from(JSON.stringify(_))`. */
  function ToPersistence(data: ContentInfo, nowMs: int, serialize: Persistence -> seq<byte>): (r: Result<Persistence>)
    ensures var size := |serialize(Persistence(data.content, data.metadata, nowMs / 1000))|;
      (r.Ok? <==> size <= ENTRY_MAX_SIZE) && (r.Err? ==> r.error == Oversize(size))
    ensures r.Ok? ==>
      r.value.content == data.content && r.value.metadata == data.metadata
      && r.value.timestamp * 1000 <= nowMs < r.value.timestamp * 1000 + 1000
  {
    var entry := Persistence(data.content, data.metadata, nowMs / 1000);
    var size := |serialize(entry)|;
    if size > ENTRY_MAX_SIZE then Err(Oversize(size)) else Ok(entry)
  }

  /** `updateIndex` before its write: the index after the current page has
      grown to `numEntries` entries. Exactly when the page holds
      `INDEX_DEFAULT_PAGE_SIZE` entries the next page becomes current and its
      key is appended; the entry count is left at the old page's count. */
  function UpdatedIndex(paths: FilePaths, kind: EntryType, index: Index, numEntries: nat): (r: Index)
    ensures r.version == index.version && r.pageSize == index.pageSize
    ensures r.currPageNumEntries == numEntries
    ensures numEntries == INDEX_DEFAULT_PAGE_SIZE ==>
      r.currPageNumber == index.currPageNumber + 1
      && r.pages == index.pages + [PagePath(paths, kind, index.currPageNumber + 1)]
    ensures numEntries != INDEX_DEFAULT_PAGE_SIZE ==>
      r.currPageNumber == index.currPageNumber && r.pages == index.pages
  {
    var counted := index.(currPageNumEntries := numEntries);
    if counted.currPageNumEntries == INDEX_DEFAULT_PAGE_SIZE then
      var next := counted.currPageNumber + 1;
      counted.(currPageNumber := next,
               pages := counted.pages + [ReplaceFirst(PageTemplate(paths, kind), PAGE_REF, NatToString(next))])
    else
      counted
  }

  /** The page `handleNewEntry` writes: the loaded page with one more entry. */
  function Pushed(page: Page, entry: Persistence): (r: Page)
    ensures r.version == page.version && r.indexPath == page.indexPath && r.pagePath == page.pagePath
    ensures |r.entries| == |page.entries| + 1
    ensures r.entries[..|page.entries|] == page.entries && r.entries[|page.entries|] == entry
  {
    page.(entries := page.entries + [entry])
  }

  /** The writes of one `handleNewEntry`, in order: the grown page at the key
      the page itself records, then the updated index at the log's index
      key. Any failure (a malformed document, an oversized entry) happens
      before the first write, so it issues none. */
  function NewEntryWrites(files: Files, paths: FilePaths, kind: EntryType, data: ContentInfo,
                          nowMs: int, serialize: Persistence -> seq<byte>): (r: Result<seq<Write>>)
    ensures var ri := LoadIndex(files, paths, kind);
      r.Ok? <==> ri.Ok? && LoadPage(files, paths, kind, ri.value).Ok?
                 && ToPersistence(data, nowMs, serialize).Ok?
    ensures ToPersistence(data, nowMs, serialize).Err? ==> r.Err?
    ensures var ri := LoadIndex(files, paths, kind);
      r.Err? ==> r.error == if ri.Err? then ri.error
                            else if LoadPage(files, paths, kind, ri.value).Err? then LoadPage(files, paths, kind, ri.value).error
                            else ToPersistence(data, nowMs, serialize).error
    ensures r.Ok? ==>
      var ix := LoadIndex(files, paths, kind).value;
      var pg := LoadPage(files, paths, kind, ix).value;
      var e := ToPersistence(data, nowMs, serialize).value;
      |r.value| == 2
      && r.value[0] == Write(pg.pagePath, PageDoc(Pushed(pg, e)))
      && r.value[1].path == IndexPath(paths, kind) && r.value[1].doc.IndexDoc?
      && r.value[1].doc.index.currPageNumEntries == |Pushed(pg, e).entries|
      && r.value[1].doc.index == UpdatedIndex(paths, kind, ix, |pg.entries| + 1)
  {
    var index :- LoadIndex(files, paths, kind);
    var page :- LoadPage(files, paths, kind, index);
    var entry :- ToPersistence(data, nowMs, serialize);
    var grown := Pushed(page, entry);
    Ok([Write(grown.pagePath, PageDoc(grown)),
        Write(IndexPath(paths, kind), IndexDoc(UpdatedIndex(paths, kind, index, |grown.entries|)))])
  }

  /** The writes of an append from the index, page and entry it loaded. */
  lemma NewEntryWritesFrom(files: Files, paths: FilePaths, kind: EntryType, data: ContentInfo,
                           nowMs: int, serialize: Persistence -> seq<byte>, index: Index, page: Page, entry: Persistence)
    requires LoadIndex(files, paths, kind) == Ok(index) && LoadPage(files, paths, kind, index) == Ok(page)
    requires ToPersistence(data, nowMs, serialize) == Ok(entry)
    ensures NewEntryWrites(files, paths, kind, data, nowMs, serialize)
         == Ok([Write(page.pagePath, PageDoc(Pushed(page, entry))),
                Write(IndexPath(paths, kind), IndexDoc(UpdatedIndex(paths, kind, index, |page.entries| + 1)))])
  {
  }

  /** The dictionary `registerSkappName` writes: the stored one (an empty one
      when there is none) with `domain` set to true. */
  function RegisteredSkapps(files: Files, paths: FilePaths, domain: string): (r: Result<map<string, bool>>)
    ensures var sp := paths.skappsDictPath;
      r.Ok? <==> sp !in files || files[sp].DictDoc?
    ensures r.Err? ==> r.error == Malformed(paths.skappsDictPath)
    ensures var sp := paths.skappsDictPath;
      var prior := if sp in files && files[sp].DictDoc? then files[sp].dict else map[];
      r.Ok? ==>
        r.value.Keys == prior.Keys + {domain} && r.value[domain]
        && forall k :: k in prior && k != domain ==> r.value[k] == prior[k]
  {
    var sp := paths.skappsDictPath;
    if sp !in files then Ok(map[domain := true])
    else match files[sp]
      case DictDoc(d) => Ok(d[domain := true])
      case _ => Err(Malformed(sp))
  }

  /** One round of `ensureFileHierarchy`: load the index and the current
      page of a log, writing nothing. */
  function WarmUp(files: Files, paths: FilePaths, kind: EntryType): (r: Status)
    ensures var ri := LoadIndex(files, paths, kind);
      r == Done <==> ri.Ok? && LoadPage(files, paths, kind, ri.value).Ok?
    ensures var ri := LoadIndex(files, paths, kind);
      r.Failed? ==> r.error == if ri.Err? then ri.error else LoadPage(files, paths, kind, ri.value).error
  {
    match LoadIndex(files, paths, kind)
    case Err(e) => Failed(e)
    case Ok(index) =>
      match LoadPage(files, paths, kind, index)
      case Err(e) => Failed(e)
      case Ok(_) => Done
  }

  /** Warm-up on a store that holds nothing succeeds: both reads fall back to
      the defaults, which are built in memory and never stored. */
  lemma WarmUpOnEmptyStore(paths: FilePaths, kind: EntryType)
    ensures WarmUp(map[], paths, kind) == Done
    ensures LoadIndex(map[], paths, kind).Ok? && LoadIndex(map[], paths, kind).value.currPageNumber == 0
  {
  }
}
