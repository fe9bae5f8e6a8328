# Content-record DAC: a verified model of its fan-out log

`ContentRecordDAC` (src/dac.ts) is a data access controller that a skapp
calls to record two kinds of event in the user's storage: new content and
interactions with content. Each kind is an append-only log stored as JSON
documents under `crqa.hns/<domain>/…`. The log has one index document that
names the current page and its entry count and lists every page key. It also
has a chain of pages of at most 1000 entries each. A new entry is stamped
with the time in seconds. It is refused if its JSON form is larger than 4096
bytes. Otherwise it is appended to the current page, and the index is
updated. The 1000th entry of a page rotates the log to the next page. On
login the DAC reads the index and current page of both logs once, writing
nothing, and it registers the skapp's domain in a shared dictionary
`crqa.hns/skapps.json`. src/utils.ts
provides `stripPrefix` and `stripSuffix`. `init` uses the second one to drop a
trailing slash from the domain.

The project is organised as follows:

- `strings.dfy` (`Strings`) holds the two helpers, together with the JavaScript
  string operations the DAC relies on: `slice` with negative indices, `String(n)`
  and `replace` of the first occurrence.
- `records.dfy` (`Records`) holds the stored records of src/types.ts.
- `paths.dfy` (`Paths`) holds the key scheme. It proves that no two keys of the
  scheme coincide, whatever the domain is.
- `kvstore.dfy` (`KeyValue`) holds the store as a class: a map from key to
  document, plus a log of its writes.
- `fanout.dfy` (`Fanout`) describes each step of the DAC as a function of the
  stored documents.
- `logstate.dfy` (`LogState`) holds the log invariant, the contents of a log and
  the preservation lemmas.
- `history.dfy` (`History`) covers whole sequences of requests. Starting from
  an empty store, each log holds exactly the accepted entries of its kind, in
  order.
- `dac.dfy` (`Dac`) holds the class `ContentRecordDAC`. Its methods perform the
  source's reads and writes in the source's order, and they are proved to equal
  the functions in `Fanout`.

Behaviour of the code worth knowing:

- Rotation compares the new entry count with the constant 1000 and uses strict
  equality. The stored index's own `pageSize` field is never read.
- The append that fills a page also rotates. Appending exactly 1000 entries to
  an empty log therefore leaves `currPageNumber == 1`, not 0.
- After a rotation, `currPageNumEntries` stays at 1000. It is not reset to 0,
  and the new page does not exist until the next append writes it.
  `LogState.IndexCount` states what the count means in both situations.
- The page is written to the key stored in the page's own `pagePath` field. It
  is not written to the key computed from the index. Under the invariant the two
  are the same key.
- The comments on `onUserLogin` and `ensureFileHierarchy` (src/dac.ts:87-89,
  238-241) say that the index and the current page of both logs get created
  there. The code at src/dac.ts:242-247 only reads them. `fetchIndex` and
  `fetchPage` build the defaults of a missing document in memory and never
  store them, so on a fresh store warm-up succeeds and leaves the store empty.
  The model follows the code: `EnsureFileHierarchy` has no `modifies` clause,
  and `Fanout.WarmUpOnEmptyStore` states that warm-up of an empty store succeeds.
- The comment on `registerSkappName` (src/dac.ts:122-123) says it is called on
  `init`. The code calls it only from `onUserLogin` (src/dac.ts:95), and `init`
  (src/dac.ts:61-83) never touches the dictionary. The model follows the code:
  the constructor writes nothing, and registration happens in `OnUserLogin` and
  in the login step of `History.Step`.

## Model

| member | source | states |
|---|---|---|
| Strings.StartsWith | src/utils.ts:2 | `startsWith` holds exactly when the prefix fits and matches character by character; then the string is the prefix followed by the rest |
| Strings.EndsWith | src/utils.ts:9 | `endsWith` holds exactly when the suffix fits and matches the last characters one by one; then the string is the rest followed by the suffix |
| Strings.SliceIndex | src/utils.ts:10 | a negative `slice` index counts back from the end; an index past the end gives the length and one before the start gives 0; `-0` is 0 |
| Strings.Slice | src/utils.ts:3 | `slice` returns the characters between the two resolved indices, or "" when they cross; never longer than the input |
| Strings.StripPrefix | src/utils.ts:1-6 | with the prefix present, `prefix + r == str`; otherwise `r == str`; `r` is always a suffix of `str` and no longer than it |
| Strings.StripSuffix | src/utils.ts:8-13 | with a non-empty suffix present, `r + suffix == str`; otherwise `r == str`; the empty suffix gives ""; `r` is always a prefix of `str` |
| Strings.NatToString | src/dac.ts:161 | `String(n)` of a page number is a non-empty string of decimal digits with no leading zero (only 0 renders starting with `0`) |
| Strings.ParseNatToString | src/dac.ts:161 | reading the digits of `String(n)` back gives `n` |
| Strings.NatToStringInjective | src/dac.ts:203-204 | different page numbers render differently |
| Strings.IndexOf | src/dac.ts:162 | the position `replace` acts at leaves room for the whole pattern inside the string |
| Strings.IndexOfOccurs | src/dac.ts:162 | the pattern occurs at that position |
| Strings.IndexOfIsFirst | src/dac.ts:162 | that position is the first occurrence; `None` means there is none |
| Strings.ReplaceFirst | src/dac.ts:162 | `replace` with a string pattern, first occurrence only; what it does is stated in `Strings.ReplaceFirstKeepsAround`, where it acts in `Strings.IndexOfOccurs` and `Strings.IndexOfIsFirst`, and `Strings.ReplaceFirstInjective` shows it keeps page numbers apart |
| Strings.ReplaceFirstKeepsAround | src/dac.ts:162 | without an occurrence the string is returned unchanged; otherwise the text before and after the first occurrence is kept, the occurrence becomes `rep`, and the length changes by `|rep| - |pat|` |
| Strings.ReplaceFirstInjective | src/dac.ts:204 | replacing an occurring `[NUM]` with different texts gives different strings |
| Paths.MakePaths | src/dac.ts:67-73 | the key table of `init` for one domain; its keys are stated in `Paths.SkappsKey`, `Paths.NewContentKeys` and `Paths.InteractionsKeys` |
| Paths.SkappsKey | src/dac.ts:68 | the skapp dictionary key is `crqa.hns/skapps.json` for every domain |
| Paths.NewContentKeys | src/dac.ts:69-70 | the new-content keys are `crqa.hns/<domain>/newcontent/index.json` and `crqa.hns/<domain>/newcontent/page_[NUM].json` |
| Paths.InteractionsKeys | src/dac.ts:71-72 | the interaction keys are `crqa.hns/<domain>/interactions/index.json` and `crqa.hns/<domain>/interactions/page_[NUM].json` |
| Paths.IndexPath | src/dac.ts:148-150 | the kind switch for the index key; what it yields is stated in `Paths.NewContentKeys`, `Paths.InteractionsKeys` and `Paths.IndexPathsDistinct` |
| Paths.PageTemplate | src/dac.ts:152-154 | the kind switch for the page template; what it yields is stated in `Paths.NewContentKeys` and `Paths.InteractionsKeys` |
| Paths.PagePath | src/dac.ts:199-204 | the template with the page number in place of `[NUM]`; its shape is stated in `Paths.PagePathShape` and its injectivity in `Paths.PagePathInjective` |
| Paths.PagePathShape | src/dac.ts:70-72 | a page key is the log folder plus `/page_<n>.json`, or the template with `[NUM]` replaced inside the domain when the domain contains one |
| Paths.IndexPathsDistinct | src/dac.ts:69-71 | the two index keys differ |
| Paths.IndexPathNotPagePath | src/dac.ts:69-72 | no index key equals any page key of either kind |
| Paths.PagePathInjective | src/dac.ts:162 | a page key determines its kind and its page number |
| Paths.SkappsPathNotLogKey | src/dac.ts:68-72 | the skapp dictionary key is not a key of either log |
| KeyValue.ApplyWrites | src/dac.ts:233-236 | after a write sequence the store has its old keys plus the written ones; the documents they hold are stated in `KeyValue.ApplyWritesKeeps` (keys no write names) and `KeyValue.ApplyWritesLastTo` (written keys) |
| KeyValue.ApplyWritesKeeps | src/dac.ts:233-236 | a key that no write names keeps its document |
| KeyValue.ApplyWritesLastTo | src/dac.ts:233-236 | `updateFile` overwrites unconditionally, so a write that no later write to the same key overrides decides that key's document |
| LogState.ApplyTwo | src/dac.ts:141-142 | the page write followed by the index write is the store updated at the page key, then at the index key |
| KeyValue.KvStore.Get | src/dac.ts:220-229 | `downloadFile` returns the document at the key, or none when the key is absent; it changes nothing |
| KeyValue.KvStore.Set | src/dac.ts:233-236 | `updateFile` overwrites the key and logs exactly that one write |
| Fanout.LoadIndex | src/dac.ts:170-190 | an absent index gives version 1, page 0, count 0, page size 1000 and `pages == [template with "0"]`; a stored index is returned as is |
| Fanout.LoadPage | src/dac.ts:194-216 | an absent current page gives version 1, empty entries, the kind's index key and the page's own key; a stored page is returned as is |
| Fanout.ToPersistence | src/dac.ts:250-263 | the entry is accepted exactly when its serialised size is at most 4096; it keeps the caller's fields, and its timestamp is the floor of the clock in seconds |
| Fanout.UpdatedIndex | src/dac.ts:156-164 | the count becomes the page length; exactly at 1000 the page number grows by one and `pages` gains the new page's key; otherwise both stay |
| Fanout.Pushed | src/dac.ts:139 | the pushed page keeps its earlier entries in order and gains the new one at the end |
| Fanout.NewEntryWrites | src/dac.ts:136-143 | the append issues first the grown page at its own key, then the index with count equal to the written page's length; an oversized entry issues no write |
| Fanout.NewEntryWritesFrom | src/dac.ts:136-143 | once the index, the page and the entry have loaded, the append's writes are the grown page and then the index updated to the grown length |
| Fanout.RegisteredSkapps | src/dac.ts:124-132 | the dictionary gains `domain ↦ true` and keeps every other key; an absent dictionary counts as empty |
| Fanout.WarmUpOnEmptyStore | src/dac.ts:242-247 | on a store that holds nothing, warm-up of either kind succeeds from the in-memory default index of page 0 |
| Fanout.WarmUp | src/dac.ts:244-245 | warm-up of a kind succeeds exactly when its index and current page load, and otherwise reports the first failure |
| LogState.LogKeysDisjoint | src/dac.ts:67-73 | no key belongs to both logs, and the dictionary belongs to neither |
| LogState.OutsideWriteKeepsLog | src/dac.ts:148-154 | writing a key outside a log keeps that log's invariant and its entries |
| LogState.LoadedFromInv | src/dac.ts:170-216 | in a well-formed log, fetching the index and page succeeds and yields the current page, which has room; the log's entries are the full pages then that page |
| LogState.UpdatedIndexShape | src/dac.ts:156-164 | `updateIndex` keeps `|pages| == currPageNumber + 1` and `pages[i]` the key of page `i` |
| LogState.AppendKeepsShape | src/dac.ts:137-165 | an append keeps the log well formed, in both the rotating and the non-rotating case |
| LogState.AppendContents | src/dac.ts:137-141 | an append adds exactly the new entry after all earlier entries of the log |
| LogState.AppendKeepsLog | src/dac.ts:136-143 | on a well-formed log the append fails exactly when the entry is oversized; otherwise it writes only keys of its own kind, keeps the invariant and appends the stamped entry |
| LogState.NewEntryKeepsInv | src/dac.ts:136-166 | recording an entry keeps the whole store well formed and leaves the other kind's log unchanged |
| LogState.AfterNewEntry | src/dac.ts:136-143 | the store after one `handleNewEntry`: the writes of `Fanout.NewEntryWrites` applied, or the old store on failure; its properties are in `LogState.AppendKeepsLog` and `LogState.NewEntryKeepsInv` |
| LogState.AfterRegister | src/dac.ts:124-132 | the store after one `registerSkappName`; its properties are in `LogState.RegisterKeepsInv` |
| LogState.NewEntryKeepsLogs | src/dac.ts:136-166 | an append to one log keeps both logs and the dictionary well formed, adds the accepted entry to its own log and leaves the other log's entries as they were |
| LogState.RegisterKeepsInv | src/dac.ts:124-132 | registration keeps both logs and sets the domain in the stored dictionary |
| LogState.WarmUpSucceeds | src/dac.ts:242-247 | warm-up never fails on a well-formed log |
| LogState.PagesBounded | src/dac.ts:159-164 | no stored page of a well-formed log holds more than 1000 entries |
| LogState.NextSlot | src/dac.ts:156-164 | a log of `N` entries appends to page `N / 1000`, which already holds `N % 1000` entries |
| LogState.IndexCount | src/dac.ts:156-163 | the stored count is the current page's length (below 1000); just after a rotation it is 1000, the new page is absent and the log holds `currPageNumber * 1000` entries |
| History.Step | src/dac.ts:86-120 | the store after serving one request: a record request is one `handleNewEntry`, a login is warm-up (which writes nothing) and registration; `History.StepKeepsInv` states what it keeps |
| History.Run | src/dac.ts:86-120 | the store after serving a sequence of requests one after another; `History.RunKeepsInv` states what it keeps |
| History.Gained | src/dac.ts:101-120 | a request adds at most one entry to a log, and adds one exactly when it records that kind and its entry fits |
| History.StepKeepsInv | src/dac.ts:86-120 | any one request keeps the store well formed and appends the accepted entry to its log |
| History.RunKeepsInv | src/dac.ts:100-120 | any request sequence appends to each log exactly its accepted entries, in order |
| History.FromEmptyStore | src/dac.ts:179-188 | from an empty store, each log equals the accepted entries of its kind |
| Dac.ContentRecordDAC.constructor | src/dac.ts:61-74 | the domain is the extracted one without its trailing slash, and the keys are derived from it |
| Dac.ContentRecordDAC.FetchIndex | src/dac.ts:170-190 | returns `LoadIndex` of the current store, reading only |
| Dac.ContentRecordDAC.FetchPage | src/dac.ts:194-216 | returns `LoadPage` of the current store, reading only |
| Dac.ContentRecordDAC.UpdateIndex | src/dac.ts:147-166 | writes `UpdatedIndex` at the kind's index key, and only that |
| Dac.ContentRecordDAC.HandleNewEntry | src/dac.ts:136-143 | performs exactly the writes of `NewEntryWrites`, in order; on failure the store and its write log are unchanged |
| Dac.ContentRecordDAC.WriteEntry | src/dac.ts:139-142 | writes the grown page at the page's own key and then the updated index, and logs exactly those two writes |
| Dac.ContentRecordDAC.RegisterSkappName | src/dac.ts:124-132 | writes `RegisteredSkapps` at the dictionary key; on a malformed dictionary, nothing |
| Dac.ContentRecordDAC.EnsureFileHierarchy | src/dac.ts:242-247 | reads both kinds in order, writes nothing, and succeeds exactly when both warm-ups do |
| Dac.ContentRecordDAC.RecordNewContent | src/dac.ts:101-109 | answers `submitted: true`; its write log gains exactly the writes of `NewEntryWrites`, none for a refused entry; on a well-formed store it appends the accepted entry to the new-content log and leaves the interactions log unchanged |
| Dac.ContentRecordDAC.RecordInteraction | src/dac.ts:112-120 | answers `submitted: true`; its write log gains exactly the writes of `NewEntryWrites`, none for a refused entry; on a well-formed store it appends the accepted entry to the interactions log and leaves the new-content log unchanged |
| Dac.ContentRecordDAC.OnUserLogin | src/dac.ts:86-98 | the write log gains exactly the dictionary write of `RegisteredSkapps` (none when the dictionary is malformed), so warm-up writes nothing; on a well-formed store the domain is registered and both logs are unchanged |

## Left out

- MySky and Skynet (`getJSON`, `setJSON`, `loadMySky`, `extractDomain`) are outside the model. The store is the in-memory `KvStore`, and the constructor receives the domain that `extractDomain` would return. Network failures of `getJSON` and `setJSON`, and the failure of `loadMySky`, are not modelled: the store always answers.
- The post-me handshake, `window`, `document` and the `debug`/`dev` URL flags are environment and I/O. Debug logging has no effect on state.
- Concurrency is not modelled. `recordNewContent` and `recordInteraction` do not await `handleNewEntry`, and `onUserLogin` starts warm-up and registration without awaiting them. Two appends of one kind can therefore interleave and lose an entry. The model serves requests one at a time, and `onUserLogin` runs warm-up, then registration.
- `Date.now()` becomes the `nowMs` argument.
- `Buffer.from(JSON.stringify(entry)).length` becomes the length of the `serialize(entry)` byte sequence, for a `serialize` function passed in.
- The text of the oversize error, which interpolates an unrelated global `length`, is not modelled. Only the failure itself is.
- Stored documents are typed: an index, a page or a dictionary. A document of the wrong shape at a key is modelled as a `Malformed` failure before any write. The source would carry on with whatever object it read. Stored numbers are natural numbers.
- Strings are sequences of `char`, not of UTF-16 code units.
- `Strings.NatToString`: does not model JavaScript's exponent notation for numbers of 1e21 and above, nor the double-precision loss beyond 2^53.
- `Strings.ReplaceFirst`: does not model the `$` patterns of `replace`. The replacement is always a string of decimal digits, so they cannot arise.
- src/types.ts is folded into `Records`. src/index.ts, webpack.config.js and src/dac.spec.ts are not part of this model.
