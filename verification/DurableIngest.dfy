/** Idempotent append-only ingest (scripts/durable_ingest.py): the canonical-hash index, the
    per-source manifest and a store that learns its known keys only when a batch is flushed. */
module DurableIngest {
  import opened Wrappers

  datatype Row = Row(text: string, sourceId: string, license: string, sourceType: Option<string>)

  /** What the gate is shown of a row; a row may leave its source type out. */
  datatype Payload = Payload(text: string, sourceId: string, license: string, sourceType: string)

  function PayloadOf(row: Row): Payload {
    Payload(row.text, row.sourceId, row.license,
            match row.sourceType case Some(given) => given case None => "approved_public_corpus")
  }

  datatype ManifestLine = ManifestLine(sourceId: string, hash: string, license: string, isNew: bool)

  /** Outside code, arbitrary: the canonical hash of a text, the verification gate against a set
      of known keys, and the keys a payload verified against them is decomposed into. */
  datatype Gate = Gate(
    canonical: string -> string, verified: (Payload, set<string>) -> bool,
    keysOf: (Payload, set<string>) -> set<string>)

  /** More known keys never make a payload pass that failed before. */
  ghost predicate Antitone(gate: Gate) {
    forall payload, k, m :: k <= m && gate.verified(payload, m) ==> gate.verified(payload, k)
  }

  const BATCH := 200

  datatype Store = Store(index: seq<string>, manifest: seq<ManifestLine>, known: set<string>)

  datatype Progress = Progress(store: Store, batch: seq<set<string>>, newFacts: nat, duplicates: nat, rejected: nat)

  function Flush(gate: Gate, p: Progress): Progress
    decreases |p.batch|
  {
    if p.batch == [] then p
    else Flush(gate, p.(store := p.store.(known := p.store.known + p.batch[0]), batch := p.batch[1..]))
  }

  function IngestRow(gate: Gate, p: Progress, row: Row): Progress {
    var h := gate.canonical(row.text);
    if h in p.store.index then
      p.(store := p.store.(manifest := p.store.manifest + [ManifestLine(row.sourceId, h, row.license, false)]),
         duplicates := p.duplicates + 1)
    else if !gate.verified(PayloadOf(row), p.store.known) then p.(rejected := p.rejected + 1)
    else
      var q := Progress(
        Store(p.store.index + [h], p.store.manifest + [ManifestLine(row.sourceId, h, row.license, true)],
              p.store.known),
        p.batch + [gate.keysOf(PayloadOf(row), p.store.known)], p.newFacts + 1, p.duplicates, p.rejected);
      if |q.batch| >= BATCH then Flush(gate, q) else q
  }

  function IngestRows(gate: Gate, p: Progress, rows: seq<Row>): Progress {
    if rows == [] then p else IngestRow(gate, IngestRows(gate, p, rows[..|rows| - 1]), rows[|rows| - 1])
  }

  function Fresh(store: Store): Progress { Progress(store, [], 0, 0, 0) }

  /** One whole call: every row, then the last partial batch. */
  function Ingested(gate: Gate, store: Store, rows: seq<Row>): Progress {
    Flush(gate, IngestRows(gate, Fresh(store), rows))
  }

  class Ingester {
    const gate: Gate
    var index: seq<string>
    var manifest: seq<ManifestLine>
    var known: set<string>

    constructor (gate: Gate)
      ensures this.gate == gate && State() == Store([], [], {})
    {
      this.gate := gate;
      index, manifest, known := [], [], {};
    }

    ghost function State(): Store
      reads this
    {
      Store(index, manifest, known)
    }

    /** `VerifiedStore.accumulate`; an empty batch adds nothing. */
    method Accumulate(batch: seq<set<string>>, ghost n: nat, ghost d: nat, ghost r: nat)
      modifies this`known
      ensures Progress(State(), [], n, d, r) == Flush(gate, Progress(old(State()), batch, n, d, r))
    {
      for i := 0 to |batch|
        invariant Flush(gate, Progress(State(), batch[i..], n, d, r))
                == Flush(gate, Progress(old(State()), batch, n, d, r))
      {
        assert batch[i..][1..] == batch[i + 1..];
        known := known + batch[i];
      }
    }

    method Ingest(rows: seq<Row>) returns (newFacts: nat, duplicates: nat, rejected: nat)
      modifies this
      ensures var done := Ingested(gate, old(State()), rows);
        State() == done.store && newFacts == done.newFacts && duplicates == done.duplicates && rejected == done.rejected
    {
      newFacts, duplicates, rejected := 0, 0, 0;
      var batch: seq<set<string>> := [];
      var seen := set h | h in index;
      for i := 0 to |rows|
        invariant Progress(State(), batch, newFacts, duplicates, rejected)
                  == IngestRows(gate, Fresh(old(State())), rows[..i])
        invariant forall h :: h in seen <==> h in index
      {
        assert rows[..i + 1][..i] == rows[..i];
        seen, batch, newFacts, duplicates, rejected := IngestOne(rows[i], seen, batch, newFacts, duplicates, rejected);
      }
      assert rows[..|rows|] == rows;
      Accumulate(batch, newFacts, duplicates, rejected);
    }

    /** The body of the loop. */
    method IngestOne(row: Row, seen0: set<string>, batch0: seq<set<string>>, newFacts0: nat, duplicates0: nat,
                     rejected0: nat)
      returns (seen: set<string>, batch: seq<set<string>>, newFacts: nat, duplicates: nat, rejected: nat)
      requires forall h :: h in seen0 <==> h in index
      modifies this
      ensures Progress(State(), batch, newFacts, duplicates, rejected)
              == IngestRow(gate, Progress(old(State()), batch0, newFacts0, duplicates0, rejected0), row)
      ensures forall h :: h in seen <==> h in index
    {
      seen, batch, newFacts, duplicates, rejected := seen0, batch0, newFacts0, duplicates0, rejected0;
      var h := gate.canonical(row.text);
      if h in seen {
        duplicates := duplicates + 1;
        manifest := manifest + [ManifestLine(row.sourceId, h, row.license, false)];
        return;
      }
      if !gate.verified(PayloadOf(row), known) {
        rejected := rejected + 1;
        return;
      }
      seen := seen + {h};
      newFacts := newFacts + 1;
      index := index + [h];
      manifest := manifest + [ManifestLine(row.sourceId, h, row.license, true)];
      batch := batch + [gate.keysOf(PayloadOf(row), known)];
      if |batch| >= BATCH {
        Accumulate(batch, newFacts, duplicates, rejected);
        batch := [];
      }
    }
  }

  /** Flushing changes the known keys and nothing else, and only adds to them. */
  lemma {:induction false} FlushShape(gate: Gate, p: Progress)
    ensures var f := Flush(gate, p);
      && f == Progress(Store(p.store.index, p.store.manifest, f.store.known), [], p.newFacts, p.duplicates, p.rejected)
      && p.store.known <= f.store.known
      && f.store.known == Flush(gate, Progress(p.store, p.batch, 0, 0, 0)).store.known
    decreases |p.batch|
  {
    if p.batch != [] {
      var q := p.(store := p.store.(known := p.store.known + p.batch[0]), batch := p.batch[1..]);
      FlushShape(gate, q);
    }
  }

  // --------------------------------------------------------------- theorems

  /** Every row is new, a duplicate or rejected, and the index grows by the new ones. */
  lemma {:induction false} CountsAddUp(gate: Gate, store: Store, rows: seq<Row>)
    ensures var p := IngestRows(gate, Fresh(store), rows);
      && p.newFacts + p.duplicates + p.rejected == |rows|
      && |p.store.index| == |store.index| + p.newFacts
      && |p.store.manifest| == |store.manifest| + p.newFacts + p.duplicates
  {
    if rows != [] {
      CountsAddUp(gate, store, rows[..|rows| - 1]);
      var p := IngestRows(gate, Fresh(store), rows[..|rows| - 1]);
      var row := rows[|rows| - 1];
      var h := gate.canonical(row.text);
      FlushShape(gate, Progress(
        Store(p.store.index + [h], p.store.manifest + [ManifestLine(row.sourceId, h, row.license, true)],
              p.store.known),
        p.batch + [gate.keysOf(PayloadOf(row), p.store.known)], p.newFacts + 1, p.duplicates, p.rejected));
    }
  }

  /** Index and `new: true` manifest lines, in order. */
  function NewHashes(manifest: seq<ManifestLine>): seq<string> {
    if manifest == [] then []
    else NewHashes(manifest[..|manifest| - 1])
         + if manifest[|manifest| - 1].isNew then [manifest[|manifest| - 1].hash] else []
  }

  /** Each canonical hash has one index line and one `new: true` manifest line, in the same order. */
  ghost predicate Registered(store: Store) {
    NoRepeats(store.index) && NewHashes(store.manifest) == store.index
  }

  lemma {:induction false} IngestKeepsRegistered(gate: Gate, store: Store, rows: seq<Row>)
    requires Registered(store)
    ensures Registered(IngestRows(gate, Fresh(store), rows).store)
    ensures Registered(Ingested(gate, store, rows).store)
  {
    FlushShape(gate, IngestRows(gate, Fresh(store), rows));
    if rows != [] {
      IngestKeepsRegistered(gate, store, rows[..|rows| - 1]);
      var p := IngestRows(gate, Fresh(store), rows[..|rows| - 1]);
      var row := rows[|rows| - 1];
      var h := gate.canonical(row.text);
      var added := ManifestLine(row.sourceId, h, row.license, true);
      var repeated := ManifestLine(row.sourceId, h, row.license, false);
      assert (p.store.manifest + [added])[..|p.store.manifest|] == p.store.manifest;
      assert (p.store.manifest + [repeated])[..|p.store.manifest|] == p.store.manifest;
      FlushShape(gate, Progress(
        Store(p.store.index + [h], p.store.manifest + [added], p.store.known),
        p.batch + [gate.keysOf(PayloadOf(row), p.store.known)], p.newFacts + 1, p.duplicates, p.rejected));
    }
  }

  /** Any number of runs on any rows, from an empty store. */
  function Runs(gate: Gate, batches: seq<seq<Row>>): Store {
    if batches == [] then Store([], [], {})
    else Ingested(gate, Runs(gate, batches[..|batches| - 1]), batches[|batches| - 1]).store
  }

  lemma {:induction false} RunsRegistered(gate: Gate, batches: seq<seq<Row>>)
    ensures Registered(Runs(gate, batches))
  {
    if batches != [] {
      RunsRegistered(gate, batches[..|batches| - 1]);
      IngestKeepsRegistered(gate, Runs(gate, batches[..|batches| - 1]), batches[|batches| - 1]);
    }
  }

  /** What a finished run knows about a row it was given: indexed, or refused by the gate. */
  ghost predicate Settled(gate: Gate, store: Store, row: Row) {
    gate.canonical(row.text) in store.index || !gate.verified(PayloadOf(row), store.known)
  }

  /** `later` holds everything `earlier` does. */
  ghost predicate Extends(earlier: Store, later: Store) {
    (forall h | h in earlier.index :: h in later.index) && earlier.known <= later.known
  }

  lemma SettledStays(gate: Gate, a: Store, b: Store, row: Row)
    requires Antitone(gate) && Settled(gate, a, row) && Extends(a, b)
    ensures Settled(gate, b, row)
  {
  }

  lemma IngestRowSettles(gate: Gate, p: Progress, row: Row)
    ensures Extends(p.store, IngestRow(gate, p, row).store)
    ensures Settled(gate, IngestRow(gate, p, row).store, row)
  {
    var h := gate.canonical(row.text);
    FlushShape(gate, Progress(
      Store(p.store.index + [h], p.store.manifest + [ManifestLine(row.sourceId, h, row.license, true)], p.store.known),
      p.batch + [gate.keysOf(PayloadOf(row), p.store.known)], p.newFacts + 1, p.duplicates, p.rejected));
    assert h in p.store.index + [h];
  }

  lemma {:induction false} IngestSettles(gate: Gate, p: Progress, rows: seq<Row>)
    requires Antitone(gate)
    ensures Extends(p.store, IngestRows(gate, p, rows).store)
    ensures forall row | row in rows :: Settled(gate, IngestRows(gate, p, rows).store, row)
  {
    if rows != [] {
      var before, last := rows[..|rows| - 1], rows[|rows| - 1];
      IngestSettles(gate, p, before);
      var q := IngestRows(gate, p, before);
      IngestRowSettles(gate, q, last);
      assert rows == before + [last];
      forall row | row in rows ensures Settled(gate, IngestRow(gate, q, last).store, row) {
        if row in before { SettledStays(gate, q.store, IngestRow(gate, q, last).store, row); }
      }
    }
  }

  lemma {:induction false} SettledRowsAddNothing(gate: Gate, store: Store, rows: seq<Row>)
    requires forall row | row in rows :: Settled(gate, store, row)
    ensures var p := IngestRows(gate, Fresh(store), rows);
      p.newFacts == 0 && p.batch == [] && p.store.index == store.index && p.store.known == store.known
  {
    if rows != [] {
      assert rows == rows[..|rows| - 1] + [rows[|rows| - 1]];
      SettledRowsAddNothing(gate, store, rows[..|rows| - 1]);
      assert Settled(gate, store, rows[|rows| - 1]);
    }
  }

  /** Idempotence: after a run, a second run on any of the same rows, in any order and number,
      adds no fact, although the gate saw the store change only batch by batch. */
  lemma SecondRunAddsNothing(gate: Gate, store: Store, rows: seq<Row>, again: seq<Row>)
    requires Antitone(gate) && forall row | row in again :: row in rows
    ensures var first := Ingested(gate, store, rows).store;
      var second := Ingested(gate, first, again);
      second.newFacts == 0 && second.store.index == first.index && second.store.known == first.known
      && second.duplicates + second.rejected == |again|
  {
    var p := IngestRows(gate, Fresh(store), rows);
    var first := Ingested(gate, store, rows).store;
    IngestSettles(gate, Fresh(store), rows);
    FlushShape(gate, p);
    forall row | row in again ensures Settled(gate, first, row) {
      SettledStays(gate, p.store, first, row);
    }
    SettledRowsAddNothing(gate, first, again);
    FlushShape(gate, IngestRows(gate, Fresh(first), again));
    CountsAddUp(gate, first, again);
  }

  // --------------------------------------------------- single rows and batches

  /** A row is a duplicate if its hash is indexed, else rejected if the gate refuses its payload, else
      new; it is counted as one of these, listed in the manifest unless rejected, and indexed if new. */
  lemma RowFate(gate: Gate, p: Progress, row: Row)
    ensures var q, h := IngestRow(gate, p, row), gate.canonical(row.text);
      var known, good := h in p.store.index, gate.verified(PayloadOf(row), p.store.known);
      && q.duplicates == p.duplicates + (if known then 1 else 0)
      && q.rejected == p.rejected + (if !known && !good then 1 else 0)
      && q.newFacts == p.newFacts + (if !known && good then 1 else 0)
      && q.store.index == p.store.index + (if !known && good then [h] else [])
      && q.store.manifest == p.store.manifest
           + (if known || good then [ManifestLine(row.sourceId, h, row.license, !known)] else [])
  {
    var h := gate.canonical(row.text);
    FlushShape(gate, Progress(
      Store(p.store.index + [h], p.store.manifest + [ManifestLine(row.sourceId, h, row.license, true)], p.store.known),
      p.batch + [gate.keysOf(PayloadOf(row), p.store.known)], p.newFacts + 1, p.duplicates, p.rejected));
  }

  /** The payload of a row without a source type is that of an approved public corpus. */
  lemma PayloadMeans(row: Row)
    ensures var x := PayloadOf(row);
      && x.text == row.text && x.sourceId == row.sourceId && x.license == row.license
      && (row.sourceType.Some? ==> x.sourceType == row.sourceType.value)
      && (row.sourceType.None? ==> x.sourceType == "approved_public_corpus")
  {
  }

  /** Flushing makes the keys of the batch known, all of them and no others. */
  lemma {:induction false} FlushAddsBatch(gate: Gate, p: Progress)
    ensures forall k :: k in Flush(gate, p).store.known <==>
              k in p.store.known || exists i | 0 <= i < |p.batch| :: k in p.batch[i]
    decreases |p.batch|
  {
    if p.batch != [] {
      var q := p.(store := p.store.(known := p.store.known + p.batch[0]), batch := p.batch[1..]);
      FlushAddsBatch(gate, q);
      forall k ensures (exists i | 0 <= i < |p.batch| :: k in p.batch[i]) <==>
                       k in p.batch[0] || exists i | 0 <= i < |q.batch| :: k in q.batch[i]
      {
        forall i | 0 <= i < |q.batch| ensures q.batch[i] == p.batch[i + 1] { }
        if i :| 0 <= i < |p.batch| && k in p.batch[i] {
          if i > 0 { assert k in q.batch[i - 1]; }
        }
      }
    }
  }

  /** Batches hold two hundred new rows: so many are waiting as have come since the last multiple of
      two hundred, and until there are two hundred the store knows what it knew at the start. */
  lemma {:induction false} BatchesOfTwoHundred(gate: Gate, store: Store, rows: seq<Row>)
    ensures var p := IngestRows(gate, Fresh(store), rows);
      && |p.batch| == p.newFacts % 200
      && (p.newFacts < 200 ==> p.store.known == store.known)
  {
    if rows != [] {
      BatchesOfTwoHundred(gate, store, rows[..|rows| - 1]);
      var p, row := IngestRows(gate, Fresh(store), rows[..|rows| - 1]), rows[|rows| - 1];
      var h := gate.canonical(row.text);
      FlushShape(gate, Progress(
        Store(p.store.index + [h], p.store.manifest + [ManifestLine(row.sourceId, h, row.license, true)],
              p.store.known),
        p.batch + [gate.keysOf(PayloadOf(row), p.store.known)], p.newFacts + 1, p.duplicates, p.rejected));
    }
  }
}
