/** One parsed visibility batch and what an operation does to a column of sources. */
module VisBatch {
  import opened Common

  /** The merge a batch performs into each listener's columns. */
  datatype Op = Add | Remove | Replace

  /** One listener's update in one channel. */
  datatype Entry = Entry(listener: string, sources: seq<string>)

  /** The generation the sim believes the mixer holds for one listener. */
  datatype Base = Base(listener: string, gen: nat)

  /** The authority stamp of a batch; a batch of a sim without arming carries none. */
  datatype Stamp = Stamp(epoch: nat, generation: nat, base: seq<Base>)

  datatype Batch = Batch(op: Op, entries: seq<Entry>, muteEntries: seq<Entry>, stamp: Option<Stamp>)

  const MAX_U32 := 0xFFFF_FFFF
  const MAX_U64 := 0xFFFF_FFFF_FFFF_FFFF
  /** Sources the parser keeps per listener. */
  const MAX_EXCL := 128

  /** No listener is named twice in a channel: the channel is a JSON object keyed by listener. */
  ghost predicate DistinctListeners(entries: seq<Entry>) {
    forall i, j :: 0 <= i < j < |entries| ==> entries[i].listener != entries[j].listener
  }

  /** What the parser guarantees of every batch it passes on. */
  ghost predicate Parsed(b: Batch) {
    && DistinctListeners(b.entries)
    && DistinctListeners(b.muteEntries)
    && (b.stamp.Some? ==> 0 < b.stamp.value.epoch <= MAX_U64 && 1 <= b.stamp.value.generation <= MAX_U32)
  }

  function SourceSet(sources: seq<string>): set<string> {
    set s | s in sources
  }

  /** The meaning of an operation on a column, as a set. */
  function ApplyOp(op: Op, column: set<string>, sources: seq<string>): set<string> {
    match op
    case Add => column + SourceSet(sources)
    case Remove => column - SourceSet(sources)
    case Replace => SourceSet(sources)
  }

  /** The listener's entry in one channel: the first that names it. */
  function FindEntry(entries: seq<Entry>, listener: string): (r: Option<Entry>)
    ensures r.Some? ==> r.value in entries && r.value.listener == listener
    ensures r.None? ==> forall e :: e in entries ==> e.listener != listener
  {
    if entries == [] then None
    else if entries[0].listener == listener then Some(entries[0])
    else FindEntry(entries[1..], listener)
  }

  function Listeners(entries: seq<Entry>): set<string> {
    set e | e in entries :: e.listener
  }

  /** Every listener either channel of a batch names. */
  function Named(b: Batch): set<string> {
    Listeners(b.entries) + Listeners(b.muteEntries)
  }
}
