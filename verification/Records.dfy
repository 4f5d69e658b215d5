/** Backend records and the Redis hash each is kept in. */
module Records {
  import opened Text
  import opened Decimal
  import opened ListCodec

  const NANOS: int := 1_000_000_000

  /** An instant, in nanoseconds since the Unix epoch; its whole seconds fit in
      64 bits. */
  type Time = t: int | INT64_MIN <= t / NANOS <= INT64_MAX

  /** Go's zero time, 1 January of year 1. */
  const ZERO_TIME: Time := -62_135_596_800 * NANOS

  function Unix(t: Time): Int64 { t / NANOS }

  datatype ModelInfo = ModelInfo(name: string, createdAt: Time, ownedBy: string)

  datatype BackendStatus = BackendStatus(
    id: string, address: string, healthy: bool, latencyMS: Int64,
    tags: seq<string>, models: seq<string>, loadedModels: seq<string>,
    modelMeta: seq<ModelInfo>, weights: map<string, int>, updatedAt: Time)

  /** The zero value of the Go struct. */
  const NO_STATUS := BackendStatus("", "", false, 0, [], [], [], [], map[], ZERO_TIME)

  /** The hash fields the code names, the legacy one included. */
  datatype Field =
    | Address | Healthy | LatencyMs | Tags | Models | LoadedModels | ModelsMeta | UpdatedAt
    | AvailableModels

  /** A field's value. JSON text is kept as the value it stands for, which makes
      the metadata codec lossless by construction. */
  datatype Cell = Raw(text: string) | Json(meta: seq<ModelInfo>)

  type Hash = map<Field, Cell>

  function EncodeModelMeta(meta: seq<ModelInfo>): Cell {
    if meta == [] then Raw("") else Json(meta)
  }

  /** The fields `SaveBackend` writes with one HSET. */
  function Fields(s: BackendStatus): Hash {
    map[Address := Raw(s.address),
        Healthy := Raw(if s.healthy then "1" else "0"),
        LatencyMs := Raw(PrintInt(s.latencyMS)),
        Tags := Raw(Encode(s.tags)),
        Models := Raw(Encode(s.models)),
        LoadedModels := Raw(Encode(s.loadedModels)),
        ModelsMeta := EncodeModelMeta(s.modelMeta),
        UpdatedAt := Raw(PrintInt(Unix(s.updatedAt)))]
  }

  /** A missing field reads as the empty string. */
  function RawText(values: Hash, f: Field): string {
    if f in values && values[f].Raw? then values[f].text else ""
  }

  function ParseLatency(raw: string): Option<Int64> {
    if TrimSpace(raw) == "" then None else ParseInt(raw)
  }

  function PreferredModels(values: Hash): seq<string> {
    var models := Decode(RawText(values, Models));
    if models != [] then models else Decode(RawText(values, AvailableModels))
  }

  function ParseUnix(raw: string): Option<Time> {
    match ParseInt(TrimSpace(raw))
    case Some(n) => Some(n * NANOS)
    case None => None
  }

  /** What loading a hash yields. */
  function Populate(id: string, values: Hash): BackendStatus {
    BackendStatus(
      id,
      TrimSpace(RawText(values, Address)),
      RawText(values, Healthy) == "1",
      match ParseLatency(RawText(values, LatencyMs)) case Some(n) => n case None => 0,
      Decode(RawText(values, Tags)),
      PreferredModels(values),
      Decode(RawText(values, LoadedModels)),
      if ModelsMeta in values && values[ModelsMeta].Json? then values[ModelsMeta].meta else [],
      map[],
      match ParseUnix(RawText(values, UpdatedAt)) case Some(t) => t case None => ZERO_TIME)
  }

  /** A blank text has no digits. */
  lemma BlankNotParsed(raw: string)
    ensures TrimSpace(raw) == "" ==> ParseInt(raw) == None
  {
  }

  method PopulateBackendStatus(id: string, values: Hash) returns (status: BackendStatus)
    ensures status == Populate(id, values)
    ensures status.id == id && status.address == TrimSpace(RawText(values, Address))
    ensures status.healthy <==> Healthy in values && values[Healthy] == Raw("1")
    ensures status.latencyMS == match ParseInt(RawText(values, LatencyMs)) case Some(n) => n case None => 0
    ensures status.tags == Decode(RawText(values, Tags)) && status.loadedModels == Decode(RawText(values, LoadedModels))
    ensures Models in values && values[Models].Raw? && Decode(values[Models].text) != [] ==> status.models == Decode(values[Models].text)
    ensures !(Models in values) && !(AvailableModels in values) ==> status.models == []
    ensures status.modelMeta == if ModelsMeta in values && values[ModelsMeta].Json? then values[ModelsMeta].meta else []
    ensures match ParseInt(TrimSpace(RawText(values, UpdatedAt)))
            case Some(n) => status.updatedAt == n * 1_000_000_000
            case None => status.updatedAt == ZERO_TIME
  {
    hide TrimSpace, ParseInt, Decode;
    BlankNotParsed(RawText(values, LatencyMs));
    EmptyDecode();
    status := NO_STATUS.(id := id);
    var addr := TrimSpace(RawText(values, Address));
    if addr != "" {
      status := status.(address := addr);
    }
    status := status.(healthy := RawText(values, Healthy) == "1");
    var latency := ParseLatency(RawText(values, LatencyMs));
    if latency.Some? {
      status := status.(latencyMS := latency.value);
    }
    var tags := DecodeStringSlice(RawText(values, Tags));
    var loaded := DecodeStringSlice(RawText(values, LoadedModels));
    status := status.(tags := tags, models := PreferredModels(values), loadedModels := loaded);
    if ModelsMeta in values && values[ModelsMeta].Json? {
      status := status.(modelMeta := values[ModelsMeta].meta);
    }
    var updated := ParseUnix(RawText(values, UpdatedAt));
    if updated.Some? {
      status := status.(updatedAt := updated.value);
    }
  }

  /** A record as the store can give it back: trimmed address, clean lists,
      whole seconds, no weights. */
  function Normalise(s: BackendStatus): BackendStatus {
    s.(address := TrimSpace(s.address), tags := Pieces(s.tags), models := Pieces(s.models),
       loadedModels := Pieces(s.loadedModels), weights := map[],
       updatedAt := Unix(s.updatedAt) * NANOS)
  }

  lemma ScalarsSurvive(s: BackendStatus)
    ensures ParseLatency(PrintInt(s.latencyMS)) == Some(s.latencyMS)
    ensures ParseUnix(PrintInt(Unix(s.updatedAt))) == Some(Unix(s.updatedAt) * NANOS)
  {
    IntRoundTrip(s.latencyMS);
    IntRoundTrip(Unix(s.updatedAt));
  }

  /** Saving over a hash and loading it returns the normalised record, unless
      the record lists no models and a legacy model list shows through. */
  lemma LoadAfterSave(base: Hash, s: BackendStatus)
    ensures Populate(s.id, base + Fields(s)) == Normalise(s) <==>
            Pieces(s.models) != [] || Decode(RawText(base, AvailableModels)) == []
  {
    hide Decode, Encode, Pieces, TrimSpace, PrintInt, ParseInt;
    var h, p, n := base + Fields(s), Populate(s.id, base + Fields(s)), Normalise(s);
    LoadedLists(base, s);
    ScalarsSurvive(s);
    assert p.address == n.address && p.healthy == n.healthy;
    assert p.latencyMS == n.latencyMS && p.updatedAt == n.updatedAt;
    assert p.modelMeta == n.modelMeta;
    assert p == n.(models := p.models);
  }

  lemma LoadedLists(base: Hash, s: BackendStatus)
    ensures var p, n := Populate(s.id, base + Fields(s)), Normalise(s);
            && p.tags == n.tags
            && p.loadedModels == n.loadedModels
            && p.models == if n.models != [] then n.models else Decode(RawText(base, AvailableModels))
  {
    hide Decode, Encode, Pieces, TrimSpace, PrintInt, ParseInt;
    var h := base + Fields(s);
    DecodeOfEncode(s.tags);
    DecodeOfEncode(s.models);
    DecodeOfEncode(s.loadedModels);
    assert RawText(h, Tags) == Encode(s.tags);
    assert RawText(h, Models) == Encode(s.models);
    assert RawText(h, LoadedModels) == Encode(s.loadedModels);
    assert RawText(h, AvailableModels) == RawText(base, AvailableModels);
  }

  lemma NormaliseIdempotent(s: BackendStatus)
    ensures Normalise(Normalise(s)) == Normalise(s)
  {
    hide Pieces, TrimSpace;
    PiecesStable(s.tags);
    PiecesStable(s.models);
    PiecesStable(s.loadedModels);
  }

  /** The records the store carries unchanged. */
  lemma NormaliseFixed(s: BackendStatus)
    ensures Normalise(s) == s <==>
            && Trimmed(s.address) && AllClean(s.tags) && AllClean(s.models) && AllClean(s.loadedModels)
            && s.weights == map[] && s.updatedAt % NANOS == 0
  {
    hide Pieces, TrimSpace;
    PiecesClean(s.tags);
    PiecesClean(s.models);
    PiecesClean(s.loadedModels);
    if AllClean(s.tags) { PiecesOfClean(s.tags); }
    if AllClean(s.models) { PiecesOfClean(s.models); }
    if AllClean(s.loadedModels) { PiecesOfClean(s.loadedModels); }
  }

  lemma ParsedInWholeSeconds(raw: string)
    ensures var t := match ParseUnix(raw) case Some(t) => t case None => ZERO_TIME;
            t % NANOS == 0
  {
  }

  /** Whatever a hash holds, loading it gives a record that is normal. */
  lemma LoadedIsNormal(id: string, values: Hash)
    ensures Normalise(Populate(id, values)) == Populate(id, values)
  {
    hide Decode, Pieces, TrimSpace, ParseUnix, ParseLatency;
    var s := Populate(id, values);
    DecodeClean(RawText(values, Tags));
    DecodeClean(RawText(values, Models));
    DecodeClean(RawText(values, AvailableModels));
    DecodeClean(RawText(values, LoadedModels));
    ParsedInWholeSeconds(RawText(values, UpdatedAt));
    NormaliseFixed(s);
  }
}
