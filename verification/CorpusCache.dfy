/** The content-addressed store of src/corpus_cache.ts: what `cached` returns is what computing would have returned. */
module CorpusCache {
  import opened Text
  import opened CanonicalJson
  import opened CanonicalJsonText

  datatype Layer =
    | ArchiveManifest | RawIdentity | NormalizedDocument | Interpretation | LexicalFeatures | Embedding | CandidateAnalysis

  const LAYERS: seq<Layer> :=
    [ArchiveManifest, RawIdentity, NormalizedDocument, Interpretation, LexicalFeatures, Embedding, CandidateAnalysis]

  const ENTRY_SCHEMA := "l9.corpus-cache-entry/v2"
  const PREVIOUS_ENTRY_SCHEMAS: set<string> := {"l9.corpus-cache-entry/v1"}

  type Slot = (Layer, string)

  /** Whatever a slot holds: a field may be missing or of the wrong type. */
  datatype Stored =
    | NotAnObject
    | Record(schema: Option<string>, layer: Option<Layer>, key: Option<string>, payloadHash: Option<string>,
             producer: Option<string>, payload: Option<Json>)

  // ---------- integrity ----------

  type Hash = string -> string

  ghost predicate Injective(hash: Hash) {
    forall a, b :: hash(a) == hash(b) ==> a == b
  }

  /** The hash of the canonical text; `None` when the payload cannot be rendered. */
  function CachePayloadHash(hash: Hash, payload: Json): Option<string> {
    match CanonicalCorpusJson(payload, 0)
    case None => None
    case Some(text) => Some(hash(text))
  }

  predicate IsStaleEntry(entry: Stored, producer: string) {
    || entry.NotAnObject? || entry.producer != Some(producer)
    || (entry.schema.Some? && entry.schema.value in PREVIOUS_ENTRY_SCHEMAS)
  }

  datatype Defect =
    | EntryNotAnObject | UnexpectedSchema | OtherLayer | OtherKey | ProducerMissing | HashMissing | PayloadMissing
    | PayloadNotSerializable | HashMismatch

  function CacheEntryDefect(entry: Stored, layer: Layer, key: string, hash: Hash): Option<Defect> {
    if entry.NotAnObject? then Some(EntryNotAnObject)
    else if entry.schema != Some(ENTRY_SCHEMA) then Some(UnexpectedSchema)
    else if entry.layer != Some(layer) then Some(OtherLayer)
    else if entry.key != Some(key) then Some(OtherKey)
    else if entry.producer.None? then Some(ProducerMissing)
    else if entry.payloadHash.None? then Some(HashMissing)
    else if entry.payload.None? then Some(PayloadMissing)
    else
      var actual := CachePayloadHash(hash, entry.payload.value);
      if actual.None? then Some(PayloadNotSerializable)
      else if actual != entry.payloadHash then Some(HashMismatch)
      else None
  }

  datatype Outcome = Missing | Stale | Corrupt | Hit(payload: Json)

  function OutcomeOf(entries: map<Slot, Stored>, layer: Layer, key: string, producer: string, hash: Hash): Outcome {
    if (layer, key) !in entries then Missing
    else
      var entry := entries[(layer, key)];
      if IsStaleEntry(entry, producer) then Stale
      else if CacheEntryDefect(entry, layer, key, hash).Some? then Corrupt
      else Hit(entry.payload.value)
  }

  // ---------- stats ----------

  datatype LayerStats = LayerStats(hits: int, misses: int, writes: int, corrupt: int, stale: int)

  type Stats = map<Layer, LayerStats>

  function EmptyStats(): Stats {
    map[ArchiveManifest := LayerStats(0, 0, 0, 0, 0), RawIdentity := LayerStats(0, 0, 0, 0, 0),
        NormalizedDocument := LayerStats(0, 0, 0, 0, 0), Interpretation := LayerStats(0, 0, 0, 0, 0),
        LexicalFeatures := LayerStats(0, 0, 0, 0, 0), Embedding := LayerStats(0, 0, 0, 0, 0),
        CandidateAnalysis := LayerStats(0, 0, 0, 0, 0)]
  }

  ghost predicate Complete(stats: Stats) {
    forall l: Layer :: l in stats
  }

  function AfterGet(s: LayerStats, outcome: Outcome): LayerStats {
    match outcome
    case Missing => s.(misses := s.misses + 1)
    case Stale => s.(misses := s.misses + 1, stale := s.stale + 1)
    case Corrupt => s.(misses := s.misses + 1, corrupt := s.corrupt + 1)
    case Hit(_) => s.(hits := s.hits + 1)
  }

  datatype Note = Note(layer: Layer, key: string, defect: Defect)

  // ---------- the cache ----------

  class MemoryCorpusCache {
    const producer: string
    const hash: Hash
    var entries: map<Slot, Stored>
    var stats: Stats
    var notes: seq<Note>

    ghost predicate Valid()
      reads this
    {
      Complete(stats)
    }

    constructor (producer: string, hash: Hash)
      ensures Valid() && this.producer == producer && this.hash == hash && entries == map[] && stats == EmptyStats()
    {
      this.producer, this.hash, entries, stats, notes := producer, hash, map[], EmptyStats(), [];
      new;
      forall l: Layer ensures l in stats {
        match l case ArchiveManifest => case RawIdentity => case NormalizedDocument => case Interpretation =>
          case LexicalFeatures => case Embedding => case CandidateAnalysis =>
      }
    }

    /** A hit returns the stored payload; anything the integrity rules refuse is discarded and counted. */
    method Get(layer: Layer, key: string) returns (hit: Option<Json>)
      requires Valid()
      modifies this
      ensures Valid()
      ensures var outcome := OutcomeOf(old(entries), layer, key, producer, hash);
              && hit == (if outcome.Hit? then Some(outcome.payload) else None)
              && entries == (if outcome.Hit? then old(entries) else old(entries) - {(layer, key)})
              && stats == old(stats)[layer := AfterGet(old(stats)[layer], outcome)]
              && notes == old(notes) + if outcome.Corrupt?
                   then [Note(layer, key, CacheEntryDefect(old(entries)[(layer, key)], layer, key, hash).value)] else []
      ensures forall p :: hit == Some(p) <==> Holds(old(entries), layer, key, p, producer, hash)
      ensures (layer, key) in old(entries) && FromAnotherRun(old(entries)[(layer, key)], producer) ==>
                && hit == None && (layer, key) !in entries && notes == old(notes)
                && stats[layer].stale == old(stats)[layer].stale + 1 && stats[layer].misses == old(stats)[layer].misses + 1
                && stats[layer].corrupt == old(stats)[layer].corrupt && stats[layer].hits == old(stats)[layer].hits
      ensures (layer, key) in old(entries) && !FromAnotherRun(old(entries)[(layer, key)], producer) && hit == None ==>
                && (layer, key) !in entries && |notes| == |old(notes)| + 1
                && stats[layer].corrupt == old(stats)[layer].corrupt + 1 && stats[layer].misses == old(stats)[layer].misses + 1
                && stats[layer].stale == old(stats)[layer].stale && stats[layer].hits == old(stats)[layer].hits
    {
      OutcomeMeans(entries, layer, key, producer, hash);
      hide CachePayloadHash, Holds, FromAnotherRun;
      var slot := (layer, key);
      if slot !in entries {
        stats := stats[layer := stats[layer].(misses := stats[layer].misses + 1)];
        return None;
      }
      var entry := entries[slot];
      if IsStaleEntry(entry, producer) {
        stats := stats[layer := stats[layer].(stale := stats[layer].stale + 1)];
        stats := stats[layer := stats[layer].(misses := stats[layer].misses + 1)];
        entries := entries - {slot};
        return None;
      }
      var defect := CacheEntryDefect(entry, layer, key, hash);
      if defect.Some? {
        stats := stats[layer := stats[layer].(corrupt := stats[layer].corrupt + 1)];
        stats := stats[layer := stats[layer].(misses := stats[layer].misses + 1)];
        notes := notes + [Note(layer, key, defect.value)];
        entries := entries - {slot};
        return None;
      }
      stats := stats[layer := stats[layer].(hits := stats[layer].hits + 1)];
      return Some(entry.payload.value);
    }

    /** `ok` is false when hashing the payload raises: nothing is stored. */
    method Put(layer: Layer, key: string, payload: Json) returns (ok: bool)
      requires Valid()
      modifies this`entries, this`stats
      ensures Valid() && (ok <==> CachePayloadHash(hash, payload).Some?)
      ensures !ok ==> entries == old(entries) && stats == old(stats)
      ensures ok ==> entries == old(entries)[(layer, key) := HonestEntry(layer, key, payload, producer, hash)]
      ensures ok ==> stats == old(stats)[layer := old(stats)[layer].(writes := old(stats)[layer].writes + 1)]
    {
      var payloadHash := CachePayloadHash(hash, payload);
      if payloadHash.None? { return false; }
      entries := entries[(layer, key) := Record(Some(ENTRY_SCHEMA), Some(layer), Some(key), payloadHash, Some(producer), Some(payload))];
      stats := stats[layer := stats[layer].(writes := stats[layer].writes + 1)];
      return true;
    }

    /** Damage one hash, payload untouched. */
    method CorruptEntry(layer: Layer, key: string, wrong: string) returns (found: bool)
      modifies this`entries
      ensures found <==> (layer, key) in old(entries)
      ensures entries == if found && old(entries)[(layer, key)].Record?
                         then old(entries)[(layer, key) := old(entries)[(layer, key)].(payloadHash := Some(wrong))] else old(entries)
    {
      var slot := (layer, key);
      if slot !in entries { return false; }
      if entries[slot].Record? { entries := entries[slot := entries[slot].(payloadHash := Some(wrong))]; }
      return true;
    }
  }

  function HonestEntry(layer: Layer, key: string, payload: Json, producer: string, hash: Hash): Stored {
    Record(Some(ENTRY_SCHEMA), Some(layer), Some(key), CachePayloadHash(hash, payload), Some(producer), Some(payload))
  }

  // ---------- what a lookup means ----------

  /** The slot holds exactly what storing `payload` would write there. */
  ghost predicate Holds(entries: map<Slot, Stored>, layer: Layer, key: string, payload: Json, producer: string, hash: Hash) {
    && Renderable(payload)
    && (layer, key) in entries && entries[(layer, key)] == HonestEntry(layer, key, payload, producer, hash)
  }

  /** Nothing this producer wrote in this epoch: another producer's, the previous epoch's, or no record at all. */
  predicate FromAnotherRun(entry: Stored, producer: string) {
    match entry
    case NotAnObject => true
    case Record(schema, _, _, _, writer, _) => writer != Some(producer) || schema == Some("l9.corpus-cache-entry/v1")
  }

  /** Hit, stale and missing said of the store; what is left is corrupt. */
  lemma {:induction false} OutcomeMeans(entries: map<Slot, Stored>, layer: Layer, key: string, producer: string, hash: Hash)
    ensures var outcome := OutcomeOf(entries, layer, key, producer, hash);
            && (outcome.Missing? <==> (layer, key) !in entries)
            && (outcome.Stale? <==> (layer, key) in entries && FromAnotherRun(entries[(layer, key)], producer))
            && forall p :: outcome == Hit(p) <==> Holds(entries, layer, key, p, producer, hash)
  {
    hide CanonicalCorpusJson, Renderable;
    EpochsDiffer();
    if (layer, key) in entries && entries[(layer, key)].Record? && entries[(layer, key)].payload.Some? {
      HashIffRenderable(hash, entries[(layer, key)].payload.value);
    }
    forall p ensures OutcomeOf(entries, layer, key, producer, hash) == Hit(p) <==> Holds(entries, layer, key, p, producer, hash) {
      HashIffRenderable(hash, p);
    }
  }

  lemma {:induction false} EpochsDiffer()
    ensures ENTRY_SCHEMA != "l9.corpus-cache-entry/v1" && ENTRY_SCHEMA !in PREVIOUS_ENTRY_SCHEMAS
  {
    assert ENTRY_SCHEMA[|ENTRY_SCHEMA| - 1] == '2' && "l9.corpus-cache-entry/v1"[|"l9.corpus-cache-entry/v1"| - 1] == '1';
  }

  // ---------- where an entry may come from ----------

  type Compute = (Layer, string) -> Json

  /** A payload and the hash of that payload. */
  ghost predicate Consistent(entry: Stored, hash: Hash) {
    && entry.Record? && entry.payload.Some? && entry.payloadHash.Some?
    && entry.payloadHash == CachePayloadHash(hash, entry.payload.value)
  }

  /**
   A payload and a hash made up together under this producer's name: they agree with each other, and
   not with the value of the key the entry names. Nothing short of that is a forgery, whatever else was
   damaged or moved. `compute` is this producer's; what another one stored may well differ from it.
   */
  ghost predicate Forged(entry: Stored, compute: Compute, producer: string, hash: Hash) {
    && Consistent(entry, hash) && entry.layer.Some? && entry.key.Some?
    && entry.producer == Some(producer) && entry.schema == Some(ENTRY_SCHEMA)
    && entry.payloadHash != CachePayloadHash(hash, compute(entry.layer.value, entry.key.value))
  }

  ghost predicate Trustworthy(entries: map<Slot, Stored>, compute: Compute, producer: string, hash: Hash) {
    forall slot :: slot in entries ==> !Forged(entries[slot], compute, producer, hash)
  }

  /** What a caller of `cached` gets instead of the computed value: that value, or the error storing it raises. */
  ghost predicate SameValue(result: Option<Json>, computed: Json) {
    && (result.Some? <==> Renderable(computed))
    && (result.Some? ==> Normal(result.value) == Normal(computed))
  }

  lemma {:induction false} HashIffRenderable(hash: Hash, payload: Json)
    ensures CachePayloadHash(hash, payload).Some? <==> Renderable(payload)
  {
    CanonicalIffRenderable(payload, 0);
    hide CanonicalCorpusJson, Renderable;
  }

  /** An entry that passes every check holds the value its key stands for. */
  lemma {:induction false} HitIsHonest(entries: map<Slot, Stored>, layer: Layer, key: string, producer: string, hash: Hash, compute: Compute)
    requires Injective(hash) && Trustworthy(entries, compute, producer, hash)
    requires OutcomeOf(entries, layer, key, producer, hash).Hit?
    ensures SameValue(Some(OutcomeOf(entries, layer, key, producer, hash).payload), compute(layer, key))
  {
    var entry := entries[(layer, key)];
    hide Normal, CanonicalCorpusJson, IsStaleEntry, Trustworthy, Renderable;
    assert !Forged(entry, compute, producer, hash);
    HashIffRenderable(hash, compute(layer, key));
    TextDeterminesValue(entry.payload.value, compute(layer, key), 0);
  }

  /** An entry as its own run would have stamped it, with the payload and the hash it has now. */
  function Stamped(entry: Stored, layer: Layer, key: string, producer: string): Stored
    requires entry.Record?
  {
    entry.(schema := Some(ENTRY_SCHEMA), layer := Some(layer), key := Some(key), producer := Some(producer))
  }

  /**
   The condition is exact: in its own slot, and of this epoch and producer, an entry is served with a
   value other than the computed one exactly when it is forged.
   */
  lemma {:induction false} ServedWronglyIffForged(entry: Stored, layer: Layer, key: string, producer: string, hash: Hash, compute: Compute)
    requires Injective(hash) && entry.Record?
    ensures var outcome := OutcomeOf(map[(layer, key) := Stamped(entry, layer, key, producer)], layer, key, producer, hash);
            outcome.Hit? && !SameValue(Some(outcome.payload), compute(layer, key))
            <==> Forged(Stamped(entry, layer, key, producer), compute, producer, hash)
  {
    hide Normal, CanonicalCorpusJson, Renderable;
    var own := Stamped(entry, layer, key, producer);
    EpochsDiffer();
    HashIffRenderable(hash, compute(layer, key));
    if Consistent(own, hash) && Renderable(compute(layer, key)) {
      TextDeterminesValue(own.payload.value, compute(layer, key), 0);
    }
  }

  /**
   A store written by other producers or in the previous epoch, every entry of it consistent and with
   whatever value: nothing in it is a forgery, and no lookup hits.
   */
  lemma {:induction false} AnotherRunsStoreIsNotServed(entries: map<Slot, Stored>, producer: string, hash: Hash, compute: Compute, slot: Slot)
    requires forall s :: s in entries ==> FromAnotherRun(entries[s], producer)
    ensures Trustworthy(entries, compute, producer, hash)
    ensures !OutcomeOf(entries, slot.0, slot.1, producer, hash).Hit?
    ensures Renderable(compute(slot.0, slot.1)) ==>
              Holds(Served(entries, slot, compute, producer, hash), slot.0, slot.1, compute(slot.0, slot.1), producer, hash)
  {
    hide CanonicalCorpusJson, Renderable, OutcomeOf;
    EpochsDiffer();
    OutcomeMeans(entries, slot.0, slot.1, producer, hash);
    HashIffRenderable(hash, compute(slot.0, slot.1));
  }

  /** What `cached` stored is what the next lookup of that slot is served. */
  lemma {:induction false} StoredIsServed(entries: map<Slot, Stored>, producer: string, hash: Hash, compute: Compute, slot: Slot)
    requires Renderable(compute(slot.0, slot.1)) && !OutcomeOf(entries, slot.0, slot.1, producer, hash).Hit?
    ensures OutcomeOf(Served(entries, slot, compute, producer, hash), slot.0, slot.1, producer, hash) == Hit(compute(slot.0, slot.1))
  {
    hide CanonicalCorpusJson, Renderable, OutcomeOf;
    HashIffRenderable(hash, compute(slot.0, slot.1));
    OutcomeMeans(Served(entries, slot, compute, producer, hash), slot.0, slot.1, producer, hash);
  }

  /** Where a cache is not transparent: no cache would have returned this value, and `cached` raises. */
  lemma {:induction false} UnfinishedNumberIsRefused(hash: Hash)
    ensures var payload := Obj([Member("score", NotFinite)]);
            !Renderable(payload) && CachePayloadHash(hash, payload).None? && forall result :: SameValue(result, payload) ==> result == None
  {
    var payload := Obj([Member("score", NotFinite)]);
    assert payload.members[0].value == NotFinite;
    HashIffRenderable(hash, payload);
    hide Normal, CachePayloadHash;
  }

  /** The store after `cached` was asked for a slot. */
  function Served(entries: map<Slot, Stored>, slot: Slot, compute: Compute, producer: string, hash: Hash): map<Slot, Stored> {
    var value := compute(slot.0, slot.1);
    if OutcomeOf(entries, slot.0, slot.1, producer, hash).Hit? then entries
    else if CachePayloadHash(hash, value).Some? then entries[slot := HonestEntry(slot.0, slot.1, value, producer, hash)]
    else entries - {slot}
  }

  /** The seam every layer goes through; `None` when storing raises. */
  method Cached(cache: MemoryCorpusCache, layer: Layer, key: string, compute: Compute) returns (result: Option<Json>)
    requires cache.Valid() && Injective(cache.hash) && Trustworthy(cache.entries, compute, cache.producer, cache.hash)
    modifies cache
    ensures cache.Valid() && Trustworthy(cache.entries, compute, cache.producer, cache.hash)
    ensures cache.entries == Served(old(cache.entries), (layer, key), compute, cache.producer, cache.hash)
    ensures SameValue(result, compute(layer, key))
    ensures Lookups(cache.stats) == Lookups(old(cache.stats)) + 1
  {
    hide OutcomeOf, Injective, Normal, CachePayloadHash, Lookups, Renderable;
    var hit := cache.Get(layer, key);
    CountedOnce(old(cache.stats), layer, OutcomeOf(old(cache.entries), layer, key, cache.producer, cache.hash));
    if hit.Some? {
      HitIsHonest(old(cache.entries), layer, key, cache.producer, cache.hash, compute);
      return hit;
    }
    var value := compute(layer, key);
    HashIffRenderable(cache.hash, value);
    ghost var between := cache.stats;
    var ok := cache.Put(layer, key, value);
    if !ok { return None; }
    WritesAreNoLookups(between, layer);
    return Some(value);
  }

  // ---------- accounting ----------

  /** The sum of one reading over the layers. */
  function SumOf(stats: Stats, layers: seq<Layer>): (sum: LayerStats)
    requires forall l :: l in layers ==> l in stats
  {
    if layers == [] then LayerStats(0, 0, 0, 0, 0)
    else Plus(stats[layers[0]], SumOf(stats, layers[1..]))
  }

  function Plus(a: LayerStats, b: LayerStats): LayerStats {
    LayerStats(a.hits + b.hits, a.misses + b.misses, a.writes + b.writes, a.corrupt + b.corrupt, a.stale + b.stale)
  }

  function Minus(a: LayerStats, b: LayerStats): LayerStats {
    LayerStats(a.hits - b.hits, a.misses - b.misses, a.writes - b.writes, a.corrupt - b.corrupt, a.stale - b.stale)
  }

  ghost function Lookups(stats: Stats): int
    requires Complete(stats)
  {
    SumOf(stats, LAYERS).hits + SumOf(stats, LAYERS).misses
  }

  lemma {:induction false} SumAfter(stats: Stats, layers: seq<Layer>, layer: Layer, s: LayerStats)
    requires (forall l :: l in layers ==> l in stats) && layer in stats
    requires forall i, j :: 0 <= i < j < |layers| ==> layers[i] != layers[j]
    ensures SumOf(stats[layer := s], layers)
            == if layer in layers then Plus(SumOf(stats, layers), Minus(s, stats[layer])) else SumOf(stats, layers)
  {
    if layers == [] {
    } else {
      SumAfter(stats, layers[1..], layer, s);
    }
  }

  lemma {:induction false} EveryLayerIsListed(layer: Layer)
    ensures layer in LAYERS && forall i, j :: 0 <= i < j < |LAYERS| ==> LAYERS[i] != LAYERS[j]
  {
    match layer
    case ArchiveManifest => assert LAYERS[0] == layer;
    case RawIdentity => assert LAYERS[1] == layer;
    case NormalizedDocument => assert LAYERS[2] == layer;
    case Interpretation => assert LAYERS[3] == layer;
    case LexicalFeatures => assert LAYERS[4] == layer;
    case Embedding => assert LAYERS[5] == layer;
    case CandidateAnalysis => assert LAYERS[6] == layer;
  }

  /** One lookup is one hit or one miss, whatever else it is. */
  lemma {:induction false} CountedOnce(stats: Stats, layer: Layer, outcome: Outcome)
    requires Complete(stats)
    ensures Complete(stats[layer := AfterGet(stats[layer], outcome)])
    ensures Lookups(stats[layer := AfterGet(stats[layer], outcome)]) == Lookups(stats) + 1
  {
    EveryLayerIsListed(layer);
    hide LAYERS, SumOf;
    SumAfter(stats, LAYERS, layer, AfterGet(stats[layer], outcome));
  }

  lemma {:induction false} WritesAreNoLookups(stats: Stats, layer: Layer)
    requires Complete(stats)
    ensures Complete(stats[layer := stats[layer].(writes := stats[layer].writes + 1)])
    ensures Lookups(stats[layer := stats[layer].(writes := stats[layer].writes + 1)]) == Lookups(stats)
  {
    EveryLayerIsListed(layer);
    hide LAYERS, SumOf;
    SumAfter(stats, LAYERS, layer, stats[layer].(writes := stats[layer].writes + 1));
  }

  /** What one span added, layer by layer. */
  function CacheStatsDelta(before: Stats, after: Stats): Stats {
    map l <- after :: if l in before then Minus(after[l], before[l]) else after[l]
  }

  lemma {:induction false} SumOfDelta(before: Stats, after: Stats, layers: seq<Layer>)
    requires Complete(before) && Complete(after)
    ensures SumOf(CacheStatsDelta(before, after), layers) == Minus(SumOf(after, layers), SumOf(before, layers))
  {
    if layers == [] {
    } else {
      SumOfDelta(before, after, layers[1..]);
    }
  }

  /** The deltas of consecutive spans add up, in every layer and in total. */
  lemma {:induction false} DeltasAddUp(first: Stats, second: Stats, third: Stats)
    requires Complete(first) && Complete(second) && Complete(third)
    ensures forall l: Layer :: Plus(CacheStatsDelta(first, second)[l], CacheStatsDelta(second, third)[l]) == CacheStatsDelta(first, third)[l]
    ensures Plus(SumOf(CacheStatsDelta(first, second), LAYERS), SumOf(CacheStatsDelta(second, third), LAYERS))
            == SumOf(CacheStatsDelta(first, third), LAYERS)
  {
    hide LAYERS;
    SumOfDelta(first, second, LAYERS);
    SumOfDelta(second, third, LAYERS);
    SumOfDelta(first, third, LAYERS);
  }

  // ---------- runs ----------

  /** A lookup, or what may happen to the store between two of them. */
  datatype Step =
    | Lookup(slot: Slot)
    | Damage(slot: Slot, wrong: string)
    | Drop(slot: Slot)
    | Move(slot: Slot, to: Slot)
    | Replace(slot: Slot, entry: Stored)

  function LookupsIn(steps: seq<Step>): nat {
    if steps == [] then 0 else LookupsIn(steps[..|steps| - 1]) + if steps[|steps| - 1].Lookup? then 1 else 0
  }

  function AfterStep(entries: map<Slot, Stored>, step: Step, compute: Compute, producer: string, hash: Hash): map<Slot, Stored> {
    match step
    case Lookup(slot) => Served(entries, slot, compute, producer, hash)
    case Damage(slot, wrong) =>
      if slot in entries && entries[slot].Record? then entries[slot := entries[slot].(payloadHash := Some(wrong))] else entries
    case Drop(slot) => entries - {slot}
    case Move(slot, to) => if slot in entries then (entries - {slot})[to := entries[slot]] else entries
    case Replace(slot, entry) => entries[slot := entry]
  }

  function StoreAfter(entries: map<Slot, Stored>, steps: seq<Step>, compute: Compute, producer: string, hash: Hash): map<Slot, Stored> {
    if steps == [] then entries
    else AfterStep(StoreAfter(entries, steps[..|steps| - 1], compute, producer, hash), steps[|steps| - 1], compute, producer, hash)
  }

  /** Between lookups a slot may be emptied, moved or overwritten in any way that is no forgery where it lands. */
  ghost predicate NeverForges(entries: map<Slot, Stored>, steps: seq<Step>, compute: Compute, producer: string, hash: Hash) {
    forall i :: 0 <= i < |steps| && (steps[i].Damage? || steps[i].Replace?) ==>
      LeavesNoForgery(StoreAfter(entries, steps[..i], compute, producer, hash), steps[i], compute, producer, hash)
  }

  ghost predicate LeavesNoForgery(entries: map<Slot, Stored>, step: Step, compute: Compute, producer: string, hash: Hash) {
    var after := AfterStep(entries, step, compute, producer, hash);
    step.slot in after ==> !Forged(after[step.slot], compute, producer, hash)
  }

  lemma {:induction false} InterferenceIsHarmless(entries: map<Slot, Stored>, step: Step, compute: Compute, producer: string, hash: Hash)
    requires Trustworthy(entries, compute, producer, hash) && !step.Lookup?
    requires step.Damage? || step.Replace? ==> LeavesNoForgery(entries, step, compute, producer, hash)
    ensures Trustworthy(AfterStep(entries, step, compute, producer, hash), compute, producer, hash)
  {
    hide Forged;
  }

  lemma {:induction false} NoSteps(entries: map<Slot, Stored>, compute: Compute, producer: string, hash: Hash)
    ensures StoreAfter(entries, [], compute, producer, hash) == entries && LookupsIn([]) == 0
  {}

  lemma {:induction false} NextStep(entries: map<Slot, Stored>, steps: seq<Step>, i: nat, compute: Compute, producer: string, hash: Hash)
    requires i < |steps|
    ensures StoreAfter(entries, steps[..i + 1], compute, producer, hash)
            == AfterStep(StoreAfter(entries, steps[..i], compute, producer, hash), steps[i], compute, producer, hash)
    ensures LookupsIn(steps[..i + 1]) == LookupsIn(steps[..i]) + if steps[i].Lookup? then 1 else 0
  {
    hide AfterStep;
    assert steps[..i + 1][..i] == steps[..i];
  }

  /** Every lookup of a run gives the value no cache would have given, and is counted once. */
  method Run(cache: MemoryCorpusCache, steps: seq<Step>, compute: Compute) returns (results: seq<Option<Json>>)
    requires cache.Valid() && Injective(cache.hash) && Trustworthy(cache.entries, compute, cache.producer, cache.hash)
    requires NeverForges(cache.entries, steps, compute, cache.producer, cache.hash)
    modifies cache
    ensures cache.Valid() && |results| == |steps|
    ensures cache.entries == StoreAfter(old(cache.entries), steps, compute, cache.producer, cache.hash)
    ensures forall i :: 0 <= i < |steps| && steps[i].Lookup? ==> SameValue(results[i], compute(steps[i].slot.0, steps[i].slot.1))
    ensures Lookups(cache.stats) - Lookups(old(cache.stats)) == LookupsIn(steps)
  {
    hide Injective, Trustworthy, SameValue, Lookups, LeavesNoForgery, Served, StoreAfter, LookupsIn, OutcomeOf;
    NoSteps(cache.entries, compute, cache.producer, cache.hash);
    results := [];
    var i := 0;
    while i < |steps|
      invariant 0 <= i <= |steps| && |results| == i && cache.Valid() && Trustworthy(cache.entries, compute, cache.producer, cache.hash)
      invariant cache.entries == StoreAfter(old(cache.entries), steps[..i], compute, cache.producer, cache.hash)
      invariant forall k :: 0 <= k < i && steps[k].Lookup? ==> SameValue(results[k], compute(steps[k].slot.0, steps[k].slot.1))
      invariant Lookups(cache.stats) - Lookups(old(cache.stats)) == LookupsIn(steps[..i])
    {
      NextStep(old(cache.entries), steps, i, compute, cache.producer, cache.hash);
      ghost var before := cache.entries;
      var r: Option<Json> := None;
      match steps[i] {
        case Lookup(slot) => r := Cached(cache, slot.0, slot.1, compute);
        case Damage(slot, wrong) => var _ := cache.CorruptEntry(slot.0, slot.1, wrong);
        case _ => cache.entries := AfterStep(cache.entries, steps[i], compute, cache.producer, cache.hash);
      }
      if !steps[i].Lookup? { InterferenceIsHarmless(before, steps[i], compute, cache.producer, cache.hash); }
      results := results + [r];
      i := i + 1;
    }
    assert steps[..i] == steps;
  }
}
