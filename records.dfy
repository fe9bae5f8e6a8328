/** The records the DAC keeps in the user's storage (src/types.ts), and the
    shape of a stored JSON document. */
module Records {

  newtype byte = x: int | 0 <= x < 256

  /** The two independent logs. */
  datatype EntryType = NewContent | Interactions

  /** What a caller records: a skylink and its metadata. The metadata is an
      arbitrary JSON object, kept here as its text. */
  datatype ContentInfo = ContentInfo(content: string, metadata: string)

  /** A stored entry: the caller's fields plus the recording time, in whole
      seconds since the epoch. */
  datatype Persistence = Persistence(content: string, metadata: string, timestamp: int)

  /** The per-log index: the page currently accepting entries, its entry
      count, the paths of every page created so far and the page size. */
  datatype Index = Index(
    version: int,
    currPageNumber: nat,
    currPageNumEntries: nat,
    pages: seq<string>,
    pageSize: int)

  /** One page of a log, with back-references to its index and to itself. */
  datatype Page = Page(
    version: int,
    indexPath: string,
    pagePath: string,
    entries: seq<Persistence>)

  /** A JSON document as the store holds it: an index, a page, or the
      dictionary of registered skapp names. */
  datatype Doc =
    | IndexDoc(index: Index)
    | PageDoc(page: Page)
    | DictDoc(dict: map<string, bool>)

  datatype Error =
    | Malformed(path: string)  // the document at `path` does not have the expected shape
    | Oversize(size: nat)      // a serialised entry is larger than the entry bound

  datatype Result<T> = Ok(value: T) | Err(error: Error) {
    predicate IsFailure() { Err? }

    function PropagateFailure<U>(): Result<U>
      requires Err?
    {
      Err(error)
    }

    function Extract(): T
      requires Ok?
    {
      value
    }
  }

  /** The result of an operation that returns nothing in the source. */
  datatype Status = Done | Failed(error: Error)

  /** What `recordNewContent` and `recordInteraction` answer. */
  datatype DacResponse = DacResponse(submitted: bool)
}
