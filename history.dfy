/** Sequences of requests served one after another: whatever mix of
    `recordNewContent`, `recordInteraction` and `onUserLogin` a skapp sends,
    each log holds exactly the entries accepted for it, in request order. */
module History {
  import opened Records
  import opened Fanout
  import opened LogState

  /** One request to the DAC, with the clock reading it observes. */
  datatype Op =
    | Record(kind: EntryType, data: ContentInfo, nowMs: int)  // recordNewContent or recordInteraction
    | Login                                                   // onUserLogin

  /** The store after serving one request. `onUserLogin` warms up both logs,
      which writes nothing, and registers the skapp name. */
  function Step(files: Files, domain: string, serialize: Persistence -> seq<byte>, op: Op): Files {
    match op
    case Record(kind, data, nowMs) => AfterNewEntry(files, domain, kind, data, nowMs, serialize)
    case Login => AfterRegister(files, domain)
  }

  function Run(files: Files, domain: string, serialize: Persistence -> seq<byte>, ops: seq<Op>): Files
    decreases |ops|
  {
    if ops == [] then files else Run(Step(files, domain, serialize, ops[0]), domain, serialize, ops[1..])
  }

  /** The entry the log of `kind` gains from one request: the stamped entry
      of a request of that kind whose entry fits, and nothing otherwise. */
  function Gained(op: Op, kind: EntryType, serialize: Persistence -> seq<byte>): (r: seq<Persistence>)
    ensures |r| <= 1
    ensures r != [] <==> op.Record? && op.kind == kind && ToPersistence(op.data, op.nowMs, serialize).Ok?
  {
    match op
    case Record(k, data, nowMs) =>
      var p := ToPersistence(data, nowMs, serialize);
      if k == kind && p.Ok? then [p.value] else []
    case Login => []
  }

  /** The entries the log of `kind` should gain from `ops`, in order. */
  function Accepted(ops: seq<Op>, kind: EntryType, serialize: Persistence -> seq<byte>): seq<Persistence>
    decreases |ops|
  {
    if ops == [] then [] else Gained(ops[0], kind, serialize) + Accepted(ops[1..], kind, serialize)
  }

  lemma StepKeepsInv(files: Files, domain: string, serialize: Persistence -> seq<byte>, op: Op)
    requires Inv(files, domain)
    ensures var f := Step(files, domain, serialize, op);
      Inv(f, domain)
      && forall kind :: Contents(f, domain, kind) == Contents(files, domain, kind) + Gained(op, kind, serialize)
  {
    match op
    case Record(k, data, nowMs) =>
      NewEntryKeepsInv(files, domain, k, data, nowMs, serialize);
    case Login =>
      RegisterKeepsInv(files, domain);
  }

  /** Serving any sequence of requests keeps the store well formed and
      appends to each log exactly its accepted entries, in order. */
  lemma {:induction false} RunKeepsInv(files: Files, domain: string, serialize: Persistence -> seq<byte>, ops: seq<Op>)
    requires Inv(files, domain)
    ensures var f := Run(files, domain, serialize, ops);
      Inv(f, domain)
      && forall kind :: Contents(f, domain, kind) == Contents(files, domain, kind) + Accepted(ops, kind, serialize)
    decreases |ops|
  {
    if ops != [] {
      var g := Step(files, domain, serialize, ops[0]);
      StepKeepsInv(files, domain, serialize, ops[0]);
      RunKeepsInv(g, domain, serialize, ops[1..]);
      var f := Run(g, domain, serialize, ops[1..]);
      assert Run(files, domain, serialize, ops) == f;
      forall kind
        ensures Contents(f, domain, kind) == Contents(files, domain, kind) + Accepted(ops, kind, serialize)
      {
        SeqAssoc(Contents(files, domain, kind), Gained(ops[0], kind, serialize), Accepted(ops[1..], kind, serialize));
      }
    }
  }

  /** Starting from an empty store, each log is exactly the accepted
      entries of its kind. */
  lemma FromEmptyStore(domain: string, serialize: Persistence -> seq<byte>, ops: seq<Op>)
    ensures var f := Run(map[], domain, serialize, ops);
      Inv(f, domain) && forall kind :: Contents(f, domain, kind) == Accepted(ops, kind, serialize)
  {
    EmptyStoreInv(domain);
    RunKeepsInv(map[], domain, serialize, ops);
  }
}
