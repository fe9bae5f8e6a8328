/** The shape a log keeps in the store, and what each DAC operation does to
    it. A log of one kind is either untouched (no index and no page) or has
    an index whose `pages` lists the keys of pages `0 .. currPageNumber`;
    every earlier page is full, the current page holds `currPageNumEntries`
    entries and fewer than `INDEX_DEFAULT_PAGE_SIZE`, or it has not been
    written yet just after a rotation, and no later page exists. The
    entries of a log are those of its pages in page order. */
module LogState {
  import opened Strings
  import opened Records
  import opened Paths
  import opened KeyValue
  import opened Fanout

  /** Page `n` of the log is stored with `count` entries and correct
      back-references. */
  ghost predicate PageHolds(files: Files, paths: FilePaths, kind: EntryType, n: nat, count: nat) {
    var pp := PagePath(paths, kind, n);
    pp in files && files[pp].PageDoc?
    && files[pp].page.version == INDEX_VERSION
    && files[pp].page.indexPath == IndexPath(paths, kind)
    && files[pp].page.pagePath == pp
    && |files[pp].page.entries| == count
  }

  /** The index lists the keys of pages `0 .. currPageNumber`, in order. */
  ghost predicate IndexShape(paths: FilePaths, kind: EntryType, ix: Index) {
    ix.version == INDEX_VERSION && ix.pageSize == INDEX_DEFAULT_PAGE_SIZE
    && |ix.pages| == ix.currPageNumber + 1
    && forall i :: 0 <= i < |ix.pages| ==> ix.pages[i] == PagePath(paths, kind, i)
  }

  ghost predicate FullBefore(files: Files, paths: FilePaths, kind: EntryType, cur: nat) {
    forall i: nat :: i < cur ==> PageHolds(files, paths, kind, i, INDEX_DEFAULT_PAGE_SIZE)
  }

  ghost predicate NoneAfter(files: Files, paths: FilePaths, kind: EntryType, cur: nat) {
    forall n: nat :: n > cur ==> PagePath(paths, kind, n) !in files
  }

  ghost predicate LiveLog(files: Files, paths: FilePaths, kind: EntryType, ix: Index) {
    var cur := ix.currPageNumber;
    IndexShape(paths, kind, ix)
    && FullBefore(files, paths, kind, cur)
    && NoneAfter(files, paths, kind, cur)
    && if PagePath(paths, kind, cur) in files then
         PageHolds(files, paths, kind, cur, ix.currPageNumEntries)
         && ix.currPageNumEntries < INDEX_DEFAULT_PAGE_SIZE
       else
         cur > 0 && ix.currPageNumEntries == INDEX_DEFAULT_PAGE_SIZE
  }

  /** The invariant of the log of `kind` for skapp `domain`. */
  ghost predicate LogInv(files: Files, domain: string, kind: EntryType) {
    var paths := MakePaths(domain);
    var ip := IndexPath(paths, kind);
    if ip in files then files[ip].IndexDoc? && LiveLog(files, paths, kind, files[ip].index)
    else NoneAfter(files, paths, kind, 0) && PagePath(paths, kind, 0) !in files
  }

  /** Both logs of the skapp are well formed. */
  ghost predicate StoreInv(files: Files, domain: string) {
    LogInv(files, domain, NewContent) && LogInv(files, domain, Interactions)
  }

  /** The keys that belong to the log of `kind`. */
  ghost predicate IsLogKey(paths: FilePaths, kind: EntryType, path: string) {
    path == IndexPath(paths, kind) || exists n: nat :: path == PagePath(paths, kind, n)
  }

  /** The entries of page `n`, none when it is not stored. */
  ghost function PageEntries(files: Files, paths: FilePaths, kind: EntryType, n: nat): seq<Persistence> {
    var pp := PagePath(paths, kind, n);
    if pp in files && files[pp].PageDoc? then files[pp].page.entries else []
  }

  /** The entries of pages `0 .. n-1`, in order. */
  ghost function EntriesBelow(files: Files, paths: FilePaths, kind: EntryType, n: nat): seq<Persistence>
    decreases n
  {
    if n == 0 then [] else EntriesBelow(files, paths, kind, n - 1) + PageEntries(files, paths, kind, n - 1)
  }

  /** Every entry the log of `kind` holds, oldest first. */
  ghost function Contents(files: Files, domain: string, kind: EntryType): seq<Persistence> {
    var paths := MakePaths(domain);
    var ip := IndexPath(paths, kind);
    if ip in files && files[ip].IndexDoc? then
      EntriesBelow(files, paths, kind, files[ip].index.currPageNumber + 1)
    else []
  }

  /** The index and page `handleNewEntry` loads, in a store where the log
      is well formed: the page is the current one and has room. */
  ghost predicate Loaded(files: Files, paths: FilePaths, kind: EntryType, ix: Index, pg: Page) {
    var cur := ix.currPageNumber;
    IndexShape(paths, kind, ix)
    && FullBefore(files, paths, kind, cur)
    && NoneAfter(files, paths, kind, cur)
    && AtCurrent(paths, kind, ix, pg)
    && |pg.entries| < INDEX_DEFAULT_PAGE_SIZE
    && PageEntries(files, paths, kind, cur) == pg.entries
  }

  /** The page carries the back-references of the index's current page. */
  ghost predicate AtCurrent(paths: FilePaths, kind: EntryType, ix: Index, pg: Page) {
    pg.version == INDEX_VERSION && pg.indexPath == IndexPath(paths, kind)
    && pg.pagePath == PagePath(paths, kind, ix.currPageNumber)
  }

  // ---------------------------------------------------------------------
  // Keys

  /** Page keys of one log are only equal for equal page numbers. */
  lemma PageKeysDiffer(domain: string, kind: EntryType, m: nat, n: nat)
    requires m != n
    ensures PagePath(MakePaths(domain), kind, m) != PagePath(MakePaths(domain), kind, n)
  {
    PagePathInjective(domain, kind, m, kind, n);
  }

  /** No key belongs to both logs, and the skapp dictionary belongs to
      neither. */
  lemma {:induction false} LogKeysDisjoint(domain: string, path: string)
    ensures !(IsLogKey(MakePaths(domain), NewContent, path) && IsLogKey(MakePaths(domain), Interactions, path))
    ensures !IsLogKey(MakePaths(domain), NewContent, MakePaths(domain).skappsDictPath)
    ensures !IsLogKey(MakePaths(domain), Interactions, MakePaths(domain).skappsDictPath)
  {
    var paths := MakePaths(domain);
    if IsLogKey(paths, NewContent, path) && IsLogKey(paths, Interactions, path) {
      IndexPathsDistinct(domain);
      if path == IndexPath(paths, NewContent) {
        var n: nat :| path == PagePath(paths, Interactions, n);
        IndexPathNotPagePath(domain, NewContent, Interactions, n);
      } else {
        var m: nat :| path == PagePath(paths, NewContent, m);
        if path == IndexPath(paths, Interactions) {
          IndexPathNotPagePath(domain, Interactions, NewContent, m);
        } else {
          var n: nat :| path == PagePath(paths, Interactions, n);
          PagePathInjective(domain, NewContent, m, Interactions, n);
        }
      }
    }
    forall kind: EntryType, n: nat {
      SkappsPathNotLogKey(domain, kind, n);
    }
  }

  lemma KeyOfOtherLog(domain: string, kind: EntryType, other: EntryType, path: string)
    requires kind != other && IsLogKey(MakePaths(domain), kind, path)
    ensures !IsLogKey(MakePaths(domain), other, path)
  {
    LogKeysDisjoint(domain, path);
  }

  // ---------------------------------------------------------------------
  // Writes outside a log

  lemma {:induction false} EntriesBelowFrame(files: Files, domain: string, kind: EntryType, path: string, doc: Doc, n: nat)
    requires !IsLogKey(MakePaths(domain), kind, path)
    ensures EntriesBelow(files[path := doc], MakePaths(domain), kind, n) == EntriesBelow(files, MakePaths(domain), kind, n)
    decreases n
  {
    if n > 0 {
      EntriesBelowFrame(files, domain, kind, path, doc, n - 1);
      assert path != PagePath(MakePaths(domain), kind, n - 1);
    }
  }

  /** A write to a key outside the log of `kind` keeps that log's invariant
      and its entries. */
  lemma OutsideWriteKeepsLog(files: Files, domain: string, kind: EntryType, path: string, doc: Doc)
    requires LogInv(files, domain, kind) && !IsLogKey(MakePaths(domain), kind, path)
    ensures LogInv(files[path := doc], domain, kind)
    ensures Contents(files[path := doc], domain, kind) == Contents(files, domain, kind)
  {
    var paths := MakePaths(domain);
    var f := files[path := doc];
    assert forall n: nat :: PagePath(paths, kind, n) in f <==> PagePath(paths, kind, n) in files by {
      forall n: nat ensures PagePath(paths, kind, n) in f <==> PagePath(paths, kind, n) in files {
        assert path != PagePath(paths, kind, n);
      }
    }
    forall n: nat, c: nat | PageHolds(files, paths, kind, n, c)
      ensures PageHolds(f, paths, kind, n, c)
    {
      assert path != PagePath(paths, kind, n);
    }
    var ip := IndexPath(paths, kind);
    if ip in files {
      EntriesBelowFrame(files, domain, kind, path, doc, files[ip].index.currPageNumber + 1);
    }
  }

  // ---------------------------------------------------------------------
  // Loading

  lemma {:induction false} FullPagesCount(files: Files, paths: FilePaths, kind: EntryType, cur: nat, n: nat)
    requires FullBefore(files, paths, kind, cur) && n <= cur
    ensures |EntriesBelow(files, paths, kind, n)| == n * INDEX_DEFAULT_PAGE_SIZE
    decreases n
  {
    if n > 0 {
      FullPagesCount(files, paths, kind, cur, n - 1);
      assert PageHolds(files, paths, kind, n - 1, INDEX_DEFAULT_PAGE_SIZE);
    }
  }

  lemma NumberZero()
    ensures NatToString(0) == "0"
  {
  }

  /** In a well-formed store, `fetchIndex` and `fetchPage` succeed and
      return the current page of the log, which has room for one more
      entry. */
  lemma LoadedFromInv(files: Files, domain: string, kind: EntryType)
    requires LogInv(files, domain, kind)
    ensures var paths := MakePaths(domain);
      var ri := LoadIndex(files, paths, kind);
      ri.Ok? && LoadPage(files, paths, kind, ri.value).Ok?
      && Loaded(files, paths, kind, ri.value, LoadPage(files, paths, kind, ri.value).value)
      && Contents(files, domain, kind) ==
           EntriesBelow(files, paths, kind, ri.value.currPageNumber)
           + LoadPage(files, paths, kind, ri.value).value.entries
  {
    var paths := MakePaths(domain);
    var ip := IndexPath(paths, kind);
    if ip !in files {
      NumberZero();
      var ix := LoadIndex(files, paths, kind).value;
      assert ix.pages == [PagePath(paths, kind, 0)];
      assert IndexShape(paths, kind, ix);
    } else {
      var ix := files[ip].index;
      assert LiveLog(files, paths, kind, ix);
    }
  }

  // ---------------------------------------------------------------------
  // Appending

  /** The index after an append keeps its shape. */
  lemma UpdatedIndexShape(paths: FilePaths, kind: EntryType, ix: Index, numEntries: nat)
    requires IndexShape(paths, kind, ix)
    ensures IndexShape(paths, kind, UpdatedIndex(paths, kind, ix, numEntries))
  {
    var r := UpdatedIndex(paths, kind, ix, numEntries);
    if numEntries == INDEX_DEFAULT_PAGE_SIZE {
      forall i | 0 <= i < |r.pages| ensures r.pages[i] == PagePath(paths, kind, i) {
        if i < |ix.pages| {
          assert r.pages[i] == ix.pages[i];
        }
      }
    }
  }

  /** The store after the two writes of an append, from a loaded log. */
  ghost function AfterAppend(files: Files, paths: FilePaths, kind: EntryType, ix: Index, pg: Page, e: Persistence): Files {
    var grown := Pushed(pg, e);
    files[grown.pagePath := PageDoc(grown)]
         [IndexPath(paths, kind) := IndexDoc(UpdatedIndex(paths, kind, ix, |grown.entries|))]
  }

  /** Pages other than the current one are neither created nor changed by
      an append. */
  lemma OtherPagesKept(files: Files, domain: string, kind: EntryType, ix: Index, pg: Page, e: Persistence, n: nat)
    requires AtCurrent(MakePaths(domain), kind, ix, pg) && n != ix.currPageNumber
    ensures var f, pp := AfterAppend(files, MakePaths(domain), kind, ix, pg, e), PagePath(MakePaths(domain), kind, n);
      (pp in f <==> pp in files) && (pp in files ==> f[pp] == files[pp])
  {
    PageKeysDiffer(domain, kind, n, ix.currPageNumber);
    IndexPathNotPagePath(domain, kind, kind, n);
  }

  lemma {:induction false} EntriesBelowKept(files: Files, domain: string, kind: EntryType, ix: Index, pg: Page, e: Persistence, n: nat)
    requires AtCurrent(MakePaths(domain), kind, ix, pg) && n <= ix.currPageNumber
    ensures EntriesBelow(AfterAppend(files, MakePaths(domain), kind, ix, pg, e), MakePaths(domain), kind, n)
         == EntriesBelow(files, MakePaths(domain), kind, n)
    decreases n
  {
    if n > 0 {
      EntriesBelowKept(files, domain, kind, ix, pg, e, n - 1);
      OtherPagesKept(files, domain, kind, ix, pg, e, n - 1);
    }
  }

  /** The current page after an append holds the loaded entries and `e`. */
  lemma CurrentPageGrown(files: Files, domain: string, kind: EntryType, ix: Index, pg: Page, e: Persistence)
    requires AtCurrent(MakePaths(domain), kind, ix, pg)
    ensures var paths := MakePaths(domain);
      PageHolds(AfterAppend(files, paths, kind, ix, pg, e), paths, kind, ix.currPageNumber, |pg.entries| + 1)
      && PageEntries(AfterAppend(files, paths, kind, ix, pg, e), paths, kind, ix.currPageNumber) == pg.entries + [e]
  {
    IndexPathNotPagePath(domain, kind, kind, ix.currPageNumber);
  }

  lemma AppendKeepsFull(files: Files, domain: string, kind: EntryType, ix: Index, pg: Page, e: Persistence)
    requires Loaded(files, MakePaths(domain), kind, ix, pg)
    ensures FullBefore(AfterAppend(files, MakePaths(domain), kind, ix, pg, e), MakePaths(domain), kind, ix.currPageNumber)
  {
    var paths := MakePaths(domain);
    forall i: nat | i < ix.currPageNumber
      ensures PageHolds(AfterAppend(files, paths, kind, ix, pg, e), paths, kind, i, INDEX_DEFAULT_PAGE_SIZE)
    {
      assert PageHolds(files, paths, kind, i, INDEX_DEFAULT_PAGE_SIZE);
      OtherPagesKept(files, domain, kind, ix, pg, e, i);
      PageHoldsKept(files, AfterAppend(files, paths, kind, ix, pg, e), paths, kind, i, INDEX_DEFAULT_PAGE_SIZE);
    }
  }

  lemma PageHoldsKept(files: Files, f: Files, paths: FilePaths, kind: EntryType, n: nat, count: nat)
    requires PageHolds(files, paths, kind, n, count)
    requires PagePath(paths, kind, n) in f && f[PagePath(paths, kind, n)] == files[PagePath(paths, kind, n)]
    ensures PageHolds(f, paths, kind, n, count)
  {
  }

  lemma AppendKeepsNoneAfter(files: Files, domain: string, kind: EntryType, ix: Index, pg: Page, e: Persistence)
    requires Loaded(files, MakePaths(domain), kind, ix, pg)
    ensures NoneAfter(AfterAppend(files, MakePaths(domain), kind, ix, pg, e), MakePaths(domain), kind, ix.currPageNumber)
  {
    var paths := MakePaths(domain);
    forall n: nat | n > ix.currPageNumber
      ensures PagePath(paths, kind, n) !in AfterAppend(files, paths, kind, ix, pg, e)
    {
      OtherPagesKept(files, domain, kind, ix, pg, e, n);
    }
  }

  /** An append to a loaded log keeps it well formed. */
  lemma AppendKeepsShape(files: Files, domain: string, kind: EntryType, ix: Index, pg: Page, e: Persistence)
    requires Loaded(files, MakePaths(domain), kind, ix, pg)
    ensures LogInv(AfterAppend(files, MakePaths(domain), kind, ix, pg, e), domain, kind)
  {
    var paths := MakePaths(domain);
    var f := AfterAppend(files, paths, kind, ix, pg, e);
    var ix' := UpdatedIndex(paths, kind, ix, |pg.entries| + 1);
    assert f[IndexPath(paths, kind)] == IndexDoc(ix');
    UpdatedIndexShape(paths, kind, ix, |pg.entries| + 1);
    CurrentPageGrown(files, domain, kind, ix, pg, e);
    AppendKeepsFull(files, domain, kind, ix, pg, e);
    AppendKeepsNoneAfter(files, domain, kind, ix, pg, e);
    if |pg.entries| + 1 == INDEX_DEFAULT_PAGE_SIZE {
      RotatedLive(f, paths, kind, ix, ix');
    } else {
      SameLive(f, paths, kind, ix, ix');
    }
  }

  /** Without rotation the index still describes the store. */
  lemma SameLive(f: Files, paths: FilePaths, kind: EntryType, ix: Index, ix': Index)
    requires IndexShape(paths, kind, ix')
    requires ix'.currPageNumber == ix.currPageNumber && ix'.currPageNumEntries < INDEX_DEFAULT_PAGE_SIZE
    requires FullBefore(f, paths, kind, ix.currPageNumber)
    requires PageHolds(f, paths, kind, ix.currPageNumber, ix'.currPageNumEntries)
    requires NoneAfter(f, paths, kind, ix.currPageNumber)
    ensures LiveLog(f, paths, kind, ix')
  {
  }

  /** The rotated index describes the store once the full page is written. */
  lemma RotatedLive(f: Files, paths: FilePaths, kind: EntryType, ix: Index, ix': Index)
    requires IndexShape(paths, kind, ix')
    requires ix'.currPageNumber == ix.currPageNumber + 1 && ix'.currPageNumEntries == INDEX_DEFAULT_PAGE_SIZE
    requires FullBefore(f, paths, kind, ix.currPageNumber)
    requires PageHolds(f, paths, kind, ix.currPageNumber, INDEX_DEFAULT_PAGE_SIZE)
    requires NoneAfter(f, paths, kind, ix.currPageNumber)
    ensures LiveLog(f, paths, kind, ix')
  {
    assert PagePath(paths, kind, ix.currPageNumber + 1) !in f;
  }

  /** An append to a loaded log adds exactly `e` after the entries it
      had. */
  lemma AppendContents(files: Files, domain: string, kind: EntryType, ix: Index, pg: Page, e: Persistence)
    requires AtCurrent(MakePaths(domain), kind, ix, pg)
    requires PagePath(MakePaths(domain), kind, ix.currPageNumber + 1) !in files
    ensures Contents(AfterAppend(files, MakePaths(domain), kind, ix, pg, e), domain, kind)
         == EntriesBelow(files, MakePaths(domain), kind, ix.currPageNumber) + pg.entries + [e]
  {
    var paths := MakePaths(domain);
    var f := AfterAppend(files, paths, kind, ix, pg, e);
    var cur := ix.currPageNumber;
    var ix' := UpdatedIndex(paths, kind, ix, |pg.entries| + 1);
    assert f[IndexPath(paths, kind)] == IndexDoc(ix');
    CurrentPageGrown(files, domain, kind, ix, pg, e);
    EntriesBelowKept(files, domain, kind, ix, pg, e, cur);
    OtherPagesKept(files, domain, kind, ix, pg, e, cur + 1);
    var below := EntriesBelow(files, paths, kind, cur);
    ContentsAfter(f, domain, kind, ix', cur, below, pg.entries + [e]);
    SeqAssoc(below, pg.entries, [e]);
  }

  /** The entries of a log whose index names page `cur`, or page `cur + 1`
      while that page is empty. */
  lemma ContentsAfter(f: Files, domain: string, kind: EntryType, ix': Index, cur: nat,
                      below: seq<Persistence>, last: seq<Persistence>)
    requires var ip := IndexPath(MakePaths(domain), kind); ip in f && f[ip] == IndexDoc(ix')
    requires ix'.currPageNumber == cur
          || (ix'.currPageNumber == cur + 1 && PagePath(MakePaths(domain), kind, cur + 1) !in f)
    requires EntriesBelow(f, MakePaths(domain), kind, cur) == below
    requires PageEntries(f, MakePaths(domain), kind, cur) == last
    ensures Contents(f, domain, kind) == below + last
  {
    var paths := MakePaths(domain);
    assert EntriesBelow(f, paths, kind, cur + 1) == below + last;
    if ix'.currPageNumber == cur + 1 {
      assert EntriesBelow(f, paths, kind, cur + 2) == EntriesBelow(f, paths, kind, cur + 1) + [];
    }
  }

  lemma SeqAssoc<T>(a: seq<T>, b: seq<T>, c: seq<T>)
    ensures a + (b + c) == a + b + c
  {
  }

  // ---------------------------------------------------------------------
  // The operations on a well-formed store

  lemma ApplyTwo(files: Files, w0: Write, w1: Write)
    ensures ApplyWrites(files, [w0, w1]) == files[w0.path := w0.doc][w1.path := w1.doc]
  {
    var f1 := files[w0.path := w0.doc];
    assert [w0, w1][1..] == [w1];
    assert ApplyWrites(files, [w0, w1]) == ApplyWrites(f1, [w1]);
    assert [w1][1..] == [];
    assert ApplyWrites(f1, [w1]) == ApplyWrites(f1[w1.path := w1.doc], []);
  }

  /** `handleNewEntry` on a well-formed log fails only for an oversized
      entry; otherwise it writes only keys of that log, keeps it well formed
      and appends exactly the stamped entry. */
  lemma AppendKeepsLog(files: Files, domain: string, kind: EntryType, data: ContentInfo,
                       nowMs: int, serialize: Persistence -> seq<byte>)
    requires LogInv(files, domain, kind)
    ensures var r := NewEntryWrites(files, MakePaths(domain), kind, data, nowMs, serialize);
      var p := ToPersistence(data, nowMs, serialize);
      (r.Ok? <==> p.Ok?)
      && (r.Ok? ==>
            (forall w :: w in r.value ==> IsLogKey(MakePaths(domain), kind, w.path))
            && LogInv(ApplyWrites(files, r.value), domain, kind)
            && Contents(ApplyWrites(files, r.value), domain, kind) == Contents(files, domain, kind) + [p.value])
  {
    var paths := MakePaths(domain);
    LoadedFromInv(files, domain, kind);
    var r := NewEntryWrites(files, paths, kind, data, nowMs, serialize);
    var p := ToPersistence(data, nowMs, serialize);
    if r.Ok? {
      var ix := LoadIndex(files, paths, kind).value;
      var pg := LoadPage(files, paths, kind, ix).value;
      var e := p.value;
      assert r.value == [r.value[0], r.value[1]];
      ApplyTwo(files, r.value[0], r.value[1]);
      assert ApplyWrites(files, r.value) == AfterAppend(files, paths, kind, ix, pg, e);
      AppendKeepsShape(files, domain, kind, ix, pg, e);
      assert PagePath(paths, kind, ix.currPageNumber + 1) !in files;
      AppendContents(files, domain, kind, ix, pg, e);
      assert IsLogKey(paths, kind, r.value[0].path);
    }
  }

  /** The skapp dictionary is absent or a dictionary. */
  ghost predicate DictInv(files: Files, domain: string) {
    var sp := MakePaths(domain).skappsDictPath;
    sp in files ==> files[sp].DictDoc?
  }

  /** The invariant of everything the DAC stores for a skapp. */
  ghost predicate Inv(files: Files, domain: string) {
    StoreInv(files, domain) && DictInv(files, domain)
  }

  lemma EmptyStoreInv(domain: string)
    ensures Inv(map[], domain)
  {
  }

  /** The store after one `handleNewEntry` (unchanged when it fails). */
  function AfterNewEntry(files: Files, domain: string, kind: EntryType, data: ContentInfo,
                         nowMs: int, serialize: Persistence -> seq<byte>): Files
  {
    match NewEntryWrites(files, MakePaths(domain), kind, data, nowMs, serialize)
    case Ok(ws) => ApplyWrites(files, ws)
    case Err(_) => files
  }

  /** The store after one `registerSkappName` (unchanged when it fails). */
  function AfterRegister(files: Files, domain: string): Files {
    var paths := MakePaths(domain);
    match RegisteredSkapps(files, paths, domain)
    case Ok(d) => files[paths.skappsDictPath := DictDoc(d)]
    case Err(_) => files
  }

  /** Two writes to keys of one log leave the other log and the skapp
      dictionary as they were. */
  lemma WritesOfOneLog(files: Files, domain: string, kind: EntryType, other: EntryType, w0: Write, w1: Write)
    requires LogInv(files, domain, other) && DictInv(files, domain) && kind != other
    requires IsLogKey(MakePaths(domain), kind, w0.path) && IsLogKey(MakePaths(domain), kind, w1.path)
    ensures var f := ApplyWrites(files, [w0, w1]);
      LogInv(f, domain, other) && DictInv(f, domain) && Contents(f, domain, other) == Contents(files, domain, other)
  {
    ApplyTwo(files, w0, w1);
    KeyOfOtherLog(domain, kind, other, w0.path);
    KeyOfOtherLog(domain, kind, other, w1.path);
    OutsideWriteKeepsLog(files, domain, other, w0.path, w0.doc);
    OutsideWriteKeepsLog(files[w0.path := w0.doc], domain, other, w1.path, w1.doc);
    LogKeysDisjoint(domain, w0.path);
    LogKeysDisjoint(domain, w1.path);
    assert w0.path != MakePaths(domain).skappsDictPath;
    assert w1.path != MakePaths(domain).skappsDictPath;
  }

  /** Recording an entry of `kind` keeps both logs and the dictionary well
      formed, appends the stamped entry to that log exactly when it fits,
      and leaves the `other` log as it was. */
  lemma NewEntryKeepsLogs(files: Files, domain: string, kind: EntryType, other: EntryType, data: ContentInfo,
                          nowMs: int, serialize: Persistence -> seq<byte>)
    requires kind != other
    requires LogInv(files, domain, kind) && LogInv(files, domain, other) && DictInv(files, domain)
    ensures var f := AfterNewEntry(files, domain, kind, data, nowMs, serialize);
      var p := ToPersistence(data, nowMs, serialize);
      LogInv(f, domain, kind) && LogInv(f, domain, other) && DictInv(f, domain)
      && Contents(f, domain, kind) == Contents(files, domain, kind) + (if p.Ok? then [p.value] else [])
      && Contents(f, domain, other) == Contents(files, domain, other)
  {
    AppendKeepsLog(files, domain, kind, data, nowMs, serialize);
    var r := NewEntryWrites(files, MakePaths(domain), kind, data, nowMs, serialize);
    if r.Ok? {
      var w0, w1 := r.value[0], r.value[1];
      assert r.value == [w0, w1];
      assert w0 in r.value && w1 in r.value;
      WritesOfOneLog(files, domain, kind, other, w0, w1);
    }
  }

  /** Recording an entry of one kind keeps the whole store well formed,
      appends the stamped entry to that log exactly when it fits, and leaves
      the other log as it was. */
  lemma NewEntryKeepsInv(files: Files, domain: string, kind: EntryType, data: ContentInfo,
                         nowMs: int, serialize: Persistence -> seq<byte>)
    requires Inv(files, domain)
    ensures var f := AfterNewEntry(files, domain, kind, data, nowMs, serialize);
      var p := ToPersistence(data, nowMs, serialize);
      Inv(f, domain)
      && Contents(f, domain, kind) == Contents(files, domain, kind) + (if p.Ok? then [p.value] else [])
      && forall other :: other != kind ==> Contents(f, domain, other) == Contents(files, domain, other)
  {
    if kind == NewContent {
      NewEntryKeepsLogs(files, domain, NewContent, Interactions, data, nowMs, serialize);
    } else {
      NewEntryKeepsLogs(files, domain, Interactions, NewContent, data, nowMs, serialize);
    }
  }

  /** Registering the skapp name keeps both logs as they were. */
  lemma RegisterKeepsInv(files: Files, domain: string)
    requires Inv(files, domain)
    ensures var f := AfterRegister(files, domain);
      var sp := MakePaths(domain).skappsDictPath;
      Inv(f, domain) && sp in f && f[sp].DictDoc? && domain in f[sp].dict && f[sp].dict[domain]
      && forall kind :: Contents(f, domain, kind) == Contents(files, domain, kind)
  {
    var paths := MakePaths(domain);
    var sp := paths.skappsDictPath;
    var d := RegisteredSkapps(files, paths, domain).value;
    LogKeysDisjoint(domain, sp);
    OutsideWriteKeepsLog(files, domain, NewContent, sp, DictDoc(d));
    OutsideWriteKeepsLog(files, domain, Interactions, sp, DictDoc(d));
  }

  /** `ensureFileHierarchy` succeeds for both kinds on a well-formed store. */
  lemma WarmUpSucceeds(files: Files, domain: string, kind: EntryType)
    requires LogInv(files, domain, kind)
    ensures WarmUp(files, MakePaths(domain), kind) == Done
  {
    LoadedFromInv(files, domain, kind);
  }

  /** No stored page of a well-formed log holds more than
      `INDEX_DEFAULT_PAGE_SIZE` entries. */
  lemma PagesBounded(files: Files, domain: string, kind: EntryType, n: nat)
    requires LogInv(files, domain, kind)
    ensures var pp := PagePath(MakePaths(domain), kind, n);
      pp in files ==> files[pp].PageDoc? && |files[pp].page.entries| <= INDEX_DEFAULT_PAGE_SIZE
  {
    var paths := MakePaths(domain);
    var ip := IndexPath(paths, kind);
    if ip in files {
      var ix := files[ip].index;
      assert LiveLog(files, paths, kind, ix);
      if n < ix.currPageNumber {
        assert PageHolds(files, paths, kind, n, INDEX_DEFAULT_PAGE_SIZE);
      } else if n > ix.currPageNumber {
        assert PagePath(paths, kind, n) !in files;
      }
    } else if n > 0 {
      assert PagePath(paths, kind, n) !in files;
    }
  }

  /** Where the next entry goes: a log with `N` entries appends to page
      `N / INDEX_DEFAULT_PAGE_SIZE`, which already holds
      `N % INDEX_DEFAULT_PAGE_SIZE` of them. */
  lemma NextSlot(files: Files, domain: string, kind: EntryType)
    requires LogInv(files, domain, kind)
    ensures var paths := MakePaths(domain);
      var ix := LoadIndex(files, paths, kind).value;
      var count := |Contents(files, domain, kind)|;
      LoadIndex(files, paths, kind).Ok? && LoadPage(files, paths, kind, ix).Ok?
      && ix.currPageNumber == count / INDEX_DEFAULT_PAGE_SIZE
      && |LoadPage(files, paths, kind, ix).value.entries| == count % INDEX_DEFAULT_PAGE_SIZE
  {
    var paths := MakePaths(domain);
    LoadedFromInv(files, domain, kind);
    var ix := LoadIndex(files, paths, kind).value;
    var pg := LoadPage(files, paths, kind, ix).value;
    FullPagesCount(files, paths, kind, ix.currPageNumber, ix.currPageNumber);
    var count := |Contents(files, domain, kind)|;
    assert count == ix.currPageNumber * INDEX_DEFAULT_PAGE_SIZE + |pg.entries|;
    DivMod(count, ix.currPageNumber, |pg.entries|);
  }

  lemma DivMod(count: nat, q: nat, r: nat)
    requires r < INDEX_DEFAULT_PAGE_SIZE && count == q * INDEX_DEFAULT_PAGE_SIZE + r
    ensures count / INDEX_DEFAULT_PAGE_SIZE == q && count % INDEX_DEFAULT_PAGE_SIZE == r
  {
  }

  /** What the stored entry count means: the length of the current page,
      except just after a rotation, when the new page does not exist yet and
      the count still says `INDEX_DEFAULT_PAGE_SIZE`, the length of the page
      that filled up. */
  lemma IndexCount(files: Files, domain: string, kind: EntryType)
    requires LogInv(files, domain, kind) && IndexPath(MakePaths(domain), kind) in files
    ensures var paths := MakePaths(domain);
      var ix := files[IndexPath(paths, kind)].index;
      var pp := PagePath(paths, kind, ix.currPageNumber);
      (pp in files ==>
         files[pp].PageDoc? && ix.currPageNumEntries == |files[pp].page.entries| < INDEX_DEFAULT_PAGE_SIZE)
      && (pp !in files ==>
            ix.currPageNumber > 0 && ix.currPageNumEntries == INDEX_DEFAULT_PAGE_SIZE
            && |Contents(files, domain, kind)| == ix.currPageNumber * INDEX_DEFAULT_PAGE_SIZE)
  {
    var paths := MakePaths(domain);
    var ix := files[IndexPath(paths, kind)].index;
    assert LiveLog(files, paths, kind, ix);
    LoadedFromInv(files, domain, kind);
    FullPagesCount(files, paths, kind, ix.currPageNumber, ix.currPageNumber);
  }
}
