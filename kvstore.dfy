/** The user's JSON store as the DAC sees it (`downloadFile` and
    `updateFile` in src/dac.ts, over MySky's `getJSON`/`setJSON`): a mutable
    map from path to document, plus the log of every write it has received. */
module KeyValue {
  import opened Strings
  import opened Records

  /** One `setJSON` call. */
  datatype Write = Write(path: string, doc: Doc)

  /** The store's documents after a sequence of writes, in order. */
  function ApplyWrites(files: map<string, Doc>, ws: seq<Write>): (r: map<string, Doc>)
    ensures r.Keys == files.Keys + set w | w in ws :: w.path
    decreases |ws|
  {
    if ws == [] then files else ApplyWrites(files[ws[0].path := ws[0].doc], ws[1..])
  }

  /** A key that no write names keeps its document. */
  lemma {:induction false} ApplyWritesKeeps(files: map<string, Doc>, ws: seq<Write>, k: string)
    requires k in files && forall w :: w in ws ==> w.path != k
    ensures k in ApplyWrites(files, ws) && ApplyWrites(files, ws)[k] == files[k]
    decreases |ws|
  {
    if ws != [] {
      assert ws[0] in ws;
      assert forall w :: w in ws[1..] ==> w in ws;
      ApplyWritesKeeps(files[ws[0].path := ws[0].doc], ws[1..], k);
    }
  }

  /** The last write to a key wins: a write that no later write overrides
      decides the document at its key. */
  lemma {:induction false} ApplyWritesLastTo(files: map<string, Doc>, ws: seq<Write>, i: nat)
    requires i < |ws| && forall j :: i < j < |ws| ==> ws[j].path != ws[i].path
    ensures ws[i].path in ApplyWrites(files, ws) && ApplyWrites(files, ws)[ws[i].path] == ws[i].doc
    decreases |ws|
  {
    var g := files[ws[0].path := ws[0].doc];
    if i == 0 {
      forall w | w in ws[1..]
        ensures w.path != ws[0].path
      {
        var j :| 0 <= j < |ws[1..]| && ws[1..][j] == w;
        assert ws[j + 1] == w;
      }
      ApplyWritesKeeps(g, ws[1..], ws[0].path);
    } else {
      assert ws[1..][i - 1] == ws[i];
      ApplyWritesLastTo(g, ws[1..], i - 1);
    }
  }

  class KvStore {
    var files: map<string, Doc>
    var writes: seq<Write>

    constructor (initial: map<string, Doc>)
      ensures files == initial && writes == []
    {
      files := initial;
      writes := [];
    }

    /** `downloadFile(path)`: the document at `path`, or `None` (the source's
        `null`) when there is none. Reading changes nothing. */
    method Get(path: string) returns (r: Option<Doc>)
      ensures path in files <==> r.Some?
      ensures r.Some? ==> r.value == files[path]
    {
      if path in files {
        r := Some(files[path]);
      } else {
        r := None;
      }
    }

    /** `updateFile(path, doc)`: overwrites unconditionally and records the
        write. */
    method Set(path: string, doc: Doc)
      modifies this
      ensures files == old(files)[path := doc]
      ensures writes == old(writes) + [Write(path, doc)]
    {
      files := files[path := doc];
      writes := writes + [Write(path, doc)];
    }
  }
}
