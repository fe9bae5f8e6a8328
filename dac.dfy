/** The ContentRecordDAC of src/dac.ts as a class over a store. Each method
    performs the reads and writes of the source in its order and is proved
    to do what the functions of module Fanout describe; the request methods
    also carry the store invariant and the log contents of module LogState.
    MySky, the skapp's referrer, the clock and JSON serialisation are
    outside the model: the store is a `KvStore`, the extracted domain is a
    constructor argument, and the clock reading and the serialiser are
    arguments of the requests that need them. */
module Dac {
  import opened Strings
  import opened Records
  import opened Paths
  import opened KeyValue
  import opened Fanout
  import opened LogState

  class ContentRecordDAC {
    const store: KvStore
    const domain: string
    const paths: FilePaths := MakePaths(domain)

    /** `init`, from the domain `extractDomain(document.referrer)` returned:
        drops one trailing slash and derives every key from the result. */
    constructor (store: KvStore, extractedDomain: string)
      ensures this.store == store
      ensures domain == StripSuffix(extractedDomain, "/") && paths == MakePaths(domain)
    {
      this.store := store;
      var d := StripSuffix(extractedDomain, "/");
      domain := d;
    }

    /** `fetchIndex`. */
    method FetchIndex(kind: EntryType) returns (r: Result<Index>)
      ensures r == LoadIndex(store.files, paths, kind)
    {
      var indexPath := IndexPath(paths, kind);
      var firstPagePath := ReplaceFirst(PageTemplate(paths, kind), PAGE_REF, NatToString(0));
      var doc := store.Get(indexPath);
      match doc {
        case None =>
          r := Ok(Index(INDEX_VERSION, 0, 0, [firstPagePath], INDEX_DEFAULT_PAGE_SIZE));
        case Some(IndexDoc(index)) =>
          r := Ok(index);
        case Some(_) =>
          r := Err(Malformed(indexPath));
      }
    }

    /** `fetchPage`. */
    method FetchPage(kind: EntryType, index: Index) returns (r: Result<Page>)
      ensures r == LoadPage(store.files, paths, kind, index)
    {
      var indexPath := IndexPath(paths, kind);
      var currPagePath := ReplaceFirst(PageTemplate(paths, kind), PAGE_REF, NatToString(index.currPageNumber));
      var doc := store.Get(currPagePath);
      match doc {
        case None =>
          r := Ok(Page(INDEX_VERSION, indexPath, currPagePath, []));
        case Some(PageDoc(page)) =>
          r := Ok(page);
        case Some(_) =>
          r := Err(Malformed(currPagePath));
      }
    }

    /** `updateIndex`: records the page's entry count, rotates to a new page
        when the current one is full, and writes the index. */
    method UpdateIndex(kind: EntryType, index: Index, page: Page)
      modifies store
      ensures var w := Write(IndexPath(paths, kind), IndexDoc(UpdatedIndex(paths, kind, index, |page.entries|)));
        store.files == old(store.files)[w.path := w.doc] && store.writes == old(store.writes) + [w]
    {
      var indexPath := IndexPath(paths, kind);
      var pagePath := PageTemplate(paths, kind);
      var ix := index.(currPageNumEntries := |page.entries|);
      if ix.currPageNumEntries == INDEX_DEFAULT_PAGE_SIZE {
        ix := ix.(currPageNumber := ix.currPageNumber + 1);
        var newPage := ReplaceFirst(pagePath, PAGE_REF, NatToString(ix.currPageNumber));
        ix := ix.(pages := ix.pages + [newPage]);
      }
      store.Set(indexPath, IndexDoc(ix));
    }

    /** `handleNewEntry`: load the index and the current page, append the
        stamped entry, write the page and then the index. A failure stops it
        before any write. */
    method HandleNewEntry(kind: EntryType, data: ContentInfo, nowMs: int, serialize: Persistence -> seq<byte>)
      returns (st: Status)
      modifies store
      ensures var r := NewEntryWrites(old(store.files), paths, kind, data, nowMs, serialize);
        st == (if r.Ok? then Done else Failed(r.error))
        && store.files == (if r.Ok? then ApplyWrites(old(store.files), r.value) else old(store.files))
        && store.writes == old(store.writes) + (if r.Ok? then r.value else [])
    {
      var ri := FetchIndex(kind);
      if ri.Err? {
        return Failed(ri.error);
      }
      var index := ri.value;
      var rp := FetchPage(kind, index);
      if rp.Err? {
        return Failed(rp.error);
      }
      var page := rp.value;
      var re := ToPersistence(data, nowMs, serialize);
      if re.Err? {
        return Failed(re.error);
      }
      NewEntryWritesFrom(store.files, paths, kind, data, nowMs, serialize, index, page, re.value);
      WriteEntry(kind, index, page, re.value);
      st := Done;
    }

    /** The two writes of `handleNewEntry`: the grown page at its own key,
        then the index. */
    method WriteEntry(kind: EntryType, index: Index, page: Page, entry: Persistence)
      modifies store
      ensures var ws := [Write(page.pagePath, PageDoc(Pushed(page, entry))),
                         Write(IndexPath(paths, kind), IndexDoc(UpdatedIndex(paths, kind, index, |page.entries| + 1)))];
        store.files == ApplyWrites(old(store.files), ws) && store.writes == old(store.writes) + ws
    {
      var grown := page.(entries := page.entries + [entry]);
      ApplyTwo(store.files, Write(grown.pagePath, PageDoc(grown)),
               Write(IndexPath(paths, kind), IndexDoc(UpdatedIndex(paths, kind, index, |grown.entries|))));
      store.Set(grown.pagePath, PageDoc(grown));
      UpdateIndex(kind, index, grown);
    }

    /** `registerSkappName`. */
    method RegisterSkappName() returns (st: Status)
      modifies store
      ensures var r := RegisteredSkapps(old(store.files), paths, domain);
        (r.Ok? ==> st == Done
                   && store.files == old(store.files)[paths.skappsDictPath := DictDoc(r.value)]
                   && store.writes == old(store.writes) + [Write(paths.skappsDictPath, DictDoc(r.value))])
        && (r.Err? ==> st == Failed(r.error) && store.files == old(store.files)
                       && store.writes == old(store.writes))
    {
      var doc := store.Get(paths.skappsDictPath);
      var skapps: map<string, bool>;
      match doc {
        case None =>
          skapps := map[];
        case Some(DictDoc(d)) =>
          skapps := d;
        case Some(_) =>
          return Failed(Malformed(paths.skappsDictPath));
      }
      skapps := skapps[domain := true];
      store.Set(paths.skappsDictPath, DictDoc(skapps));
      st := Done;
    }

    /** `ensureFileHierarchy`: loads the index and current page of both logs
        in turn, writing nothing, and reports the first failure. */
    method EnsureFileHierarchy() returns (st: Status)
      ensures st == Done <==>
        WarmUp(store.files, paths, NewContent) == Done && WarmUp(store.files, paths, Interactions) == Done
      ensures st.Failed? ==>
        st == if WarmUp(store.files, paths, NewContent).Failed? then WarmUp(store.files, paths, NewContent)
              else WarmUp(store.files, paths, Interactions)
    {
      var kinds := [NewContent, Interactions];
      var i := 0;
      while i < |kinds|
        invariant 0 <= i <= |kinds|
        invariant i > 0 ==> WarmUp(store.files, paths, NewContent) == Done
        invariant i > 1 ==> WarmUp(store.files, paths, Interactions) == Done
      {
        var ri := FetchIndex(kinds[i]);
        if ri.Err? {
          return Failed(ri.error);
        }
        var rp := FetchPage(kinds[i], ri.value);
        if rp.Err? {
          return Failed(rp.error);
        }
        i := i + 1;
      }
      st := Done;
    }

    /** `recordNewContent`: always answers `submitted: true`; the entry is
        appended to the new-content log when it fits. */
    method RecordNewContent(data: ContentInfo, nowMs: int, serialize: Persistence -> seq<byte>)
      returns (resp: DacResponse)
      modifies store
      ensures resp.submitted
      ensures store.files == AfterNewEntry(old(store.files), domain, NewContent, data, nowMs, serialize)
      ensures store.writes == old(store.writes)
        + (match NewEntryWrites(old(store.files), paths, NewContent, data, nowMs, serialize)
           case Ok(ws) => ws
           case Err(_) => [])
      ensures Inv(old(store.files), domain) ==>
        Inv(store.files, domain)
        && Contents(store.files, domain, NewContent) == Contents(old(store.files), domain, NewContent)
             + (var p := ToPersistence(data, nowMs, serialize); if p.Ok? then [p.value] else [])
        && Contents(store.files, domain, Interactions) == Contents(old(store.files), domain, Interactions)
    {
      ghost var before := store.files;
      var _ := HandleNewEntry(NewContent, data, nowMs, serialize);
      if Inv(before, domain) {
        NewEntryKeepsInv(before, domain, NewContent, data, nowMs, serialize);
      }
      resp := DacResponse(true);
    }

    /** `recordInteraction`: as `recordNewContent`, for the interactions
        log. */
    method RecordInteraction(data: ContentInfo, nowMs: int, serialize: Persistence -> seq<byte>)
      returns (resp: DacResponse)
      modifies store
      ensures resp.submitted
      ensures store.files == AfterNewEntry(old(store.files), domain, Interactions, data, nowMs, serialize)
      ensures store.writes == old(store.writes)
        + (match NewEntryWrites(old(store.files), paths, Interactions, data, nowMs, serialize)
           case Ok(ws) => ws
           case Err(_) => [])
      ensures Inv(old(store.files), domain) ==>
        Inv(store.files, domain)
        && Contents(store.files, domain, Interactions) == Contents(old(store.files), domain, Interactions)
             + (var p := ToPersistence(data, nowMs, serialize); if p.Ok? then [p.value] else [])
        && Contents(store.files, domain, NewContent) == Contents(old(store.files), domain, NewContent)
    {
      ghost var before := store.files;
      var _ := HandleNewEntry(Interactions, data, nowMs, serialize);
      if Inv(before, domain) {
        NewEntryKeepsInv(before, domain, Interactions, data, nowMs, serialize);
      }
      resp := DacResponse(true);
    }

    /** `onUserLogin`: warms up both logs, then registers the skapp name. */
    method OnUserLogin()
      modifies store
      ensures store.files == AfterRegister(old(store.files), domain)
      ensures store.writes == old(store.writes)
        + (match RegisteredSkapps(old(store.files), paths, domain)
           case Ok(d) => [Write(paths.skappsDictPath, DictDoc(d))]
           case Err(_) => [])
      ensures Inv(old(store.files), domain) ==>
        Inv(store.files, domain)
        && paths.skappsDictPath in store.files && store.files[paths.skappsDictPath].DictDoc?
        && domain in store.files[paths.skappsDictPath].dict && store.files[paths.skappsDictPath].dict[domain]
        && forall kind :: Contents(store.files, domain, kind) == Contents(old(store.files), domain, kind)
    {
      ghost var before := store.files;
      var _ := EnsureFileHierarchy();
      var _ := RegisterSkappName();
      if Inv(before, domain) {
        RegisterKeepsInv(before, domain);
      }
    }
  }
}
