/**
 Site data bundles: server/scripts/site-data/bundle-file.ts, bundle-header.ts, export-data.ts and
 import-data.ts over SiteRestore.

 JSON text, SHA-256, ISO dates and pg_dump are parameters (Runtime) of which only the contracts in Sound are used.
 */
module SiteBundle {
  import opened Wrappers
  import opened Text
  import opened SiteRestore

  type Byte = b: nat | b < 256
  type Bytes = seq<Byte>

  const NEWLINE: Byte := 10
  const MAX_PREAMBLE_BYTES := 1024 * 1024
  const MAX_SAFE_INTEGER := 0x1F_FFFF_FFFF_FFFF

  /** "CERNERE-DATA-BUNDLE" */
  const BUNDLE_MAGIC: Bytes := [67, 69, 82, 78, 69, 82, 69, 45, 68, 65, 84, 65, 45, 66, 85, 78, 68, 76, 69]

  datatype Json =
    | JNull
    | JNumber(number: int)
    | JString(text: string)
    | JArray(items: seq<Json>)
    | JObject(fields: map<string, Json>)

  datatype Runtime = Runtime(
    stringify: Json -> Bytes,
    parse: Bytes -> Option<Json>,
    sha256: Bytes -> string,
    isoDate: int -> string,
    isDate: string -> bool,
    dump: Contents -> Bytes,
    load: Bytes -> Option<Contents>)

  /** JSON text has no raw newline and parses back; digests are 64 hex digits; ISO dates are dates; a dump restores. */
  ghost predicate Sound(rt: Runtime) {
    && (forall j :: NEWLINE !in rt.stringify(j) && rt.parse(rt.stringify(j)) == Some(j))
    && (forall bytes :: IsSha256(rt.sha256(bytes)))
    && (forall t :: rt.isDate(rt.isoDate(t)))
    && (forall c :: rt.load(rt.dump(c)) == Some(c))
  }

  // ---------------------------------------------------------------- the header

  datatype Header = Header(createdAt: string, serverVersion: string, database: string, tables: map<string, nat>,
                           dumpSha256: string, dumpBytes: nat)

  predicate IsSha256(text: string) {
    |text| == 64 && forall i :: 0 <= i < 64 ==> '0' <= text[i] <= '9' || 'a' <= text[i] <= 'f'
  }

  predicate IsLabel(text: string) {
    1 <= |text| <= 256 && forall i :: 0 <= i < |text| ==> text[i] >= ' '
  }

  predicate IsCount(n: int) {
    0 <= n <= MAX_SAFE_INTEGER
  }

  predicate IsRowCounts(tables: map<string, nat>) {
    forall t :: t in tables ==> IsLabel(t) && IsCount(tables[t])
  }

  /** assembleBundleHeader */
  function AssembleBundleHeader(rt: Runtime, createdAt: int, serverVersion: string, database: string,
                                tables: map<string, nat>, dumpSha256: string, dumpBytes: nat): Option<Header> {
    if IsLabel(serverVersion) && IsLabel(database) && IsRowCounts(tables) && IsSha256(dumpSha256) && IsCount(dumpBytes)
    then Some(Header(rt.isoDate(createdAt), serverVersion, database, tables, dumpSha256, dumpBytes))
    else None
  }

  function PostgresJson(h: Header): Json {
    JObject(map["serverVersion" := JString(h.serverVersion), "database" := JString(h.database)])
  }

  function TablesJson(tables: map<string, nat>): Json {
    JObject(map t | t in tables :: JNumber(tables[t]))
  }

  function DumpJson(h: Header): Json {
    JObject(map["format" := JString("pg_dump-custom"), "sha256" := JString(h.dumpSha256),
                "bytes" := JNumber(h.dumpBytes)])
  }

  /** The object that JSON.stringify prints. */
  function HeaderJson(h: Header): Json {
    JObject(map[
      "service" := JString("cernere"), "formatVersion" := JNumber(1), "createdAt" := JString(h.createdAt),
      "postgres" := PostgresJson(h), "tables" := TablesJson(h.tables), "dump" := DumpJson(h),
      "excluded" := JArray([JString("redis")])])
  }

  datatype BundleError = BundleInvalid | ServiceMismatch | FormatUnsupported | Sha256Mismatch | DumpSha256Mismatch

  /** value[field], where undefined is None. */
  function Field(value: Json, field: string): Option<Json> {
    if value.JObject? && field in value.fields then Some(value.fields[field]) else None
  }

  predicate IsLabelField(value: Option<Json>) {
    value.Some? && value.value.JString? && IsLabel(value.value.text)
  }

  predicate IsRecord(value: Option<Json>) {
    value.Some? && value.value.JObject?
  }

  predicate IsCountField(value: Option<Json>) {
    value.Some? && value.value.JNumber? && IsCount(value.value.number)
  }

  predicate IsRowCountsJson(value: Option<Json>) {
    IsRecord(value) && forall t :: t in value.value.fields ==> IsLabel(t) && IsCountField(Some(value.value.fields[t]))
  }

  predicate HeaderFields(rt: Runtime, value: Json) {
    var createdAt, postgres, dump, excluded :=
      Field(value, "createdAt"), Field(value, "postgres"), Field(value, "dump"), Field(value, "excluded");
    && createdAt.Some? && createdAt.value.JString? && rt.isDate(createdAt.value.text)
    && IsRecord(postgres) && IsLabelField(Field(postgres.value, "serverVersion"))
    && IsLabelField(Field(postgres.value, "database"))
    && IsRowCountsJson(Field(value, "tables"))
    && IsRecord(dump) && Field(dump.value, "format") == Some(JString("pg_dump-custom"))
    && (var sha := Field(dump.value, "sha256"); sha.Some? && sha.value.JString? && IsSha256(sha.value.text))
    && IsCountField(Field(dump.value, "bytes"))
    && excluded.Some? && excluded.value.JArray?
    && forall i :: 0 <= i < |excluded.value.items| ==> IsLabelField(Some(excluded.value.items[i]))
  }

  /** checkBundleHeader; the parts of the accepted object that import reads. */
  function CheckBundleHeader(rt: Runtime, value: Json): Result<Header, BundleError> {
    if !value.JObject? then Err(BundleInvalid)
    else if Field(value, "service") != Some(JString("cernere")) then Err(ServiceMismatch)
    else if Field(value, "formatVersion") != Some(JNumber(1)) then Err(FormatUnsupported)
    else if !HeaderFields(rt, value) then Err(BundleInvalid)
    else
      var postgres, dump, tables := value.fields["postgres"], value.fields["dump"], value.fields["tables"].fields;
      Ok(Header(value.fields["createdAt"].text, postgres.fields["serverVersion"].text, postgres.fields["database"].text,
                map t | t in tables :: tables[t].number, dump.fields["sha256"].text, dump.fields["bytes"].number))
  }

  lemma HeaderLookups(h: Header)
    ensures Field(HeaderJson(h), "service") == Some(JString("cernere"))
    ensures Field(HeaderJson(h), "formatVersion") == Some(JNumber(1))
    ensures Field(HeaderJson(h), "createdAt") == Some(JString(h.createdAt))
    ensures Field(HeaderJson(h), "postgres") == Some(PostgresJson(h))
    ensures Field(HeaderJson(h), "tables") == Some(TablesJson(h.tables))
    ensures Field(HeaderJson(h), "dump") == Some(DumpJson(h))
    ensures Field(HeaderJson(h), "excluded") == Some(JArray([JString("redis")]))
  {
    assert "service"[0] == 's' && "formatVersion"[0] == 'f' && "createdAt"[0] == 'c' && "postgres"[0] == 'p';
    assert "tables"[0] == 't' && "dump"[0] == 'd' && "excluded"[0] == 'e';
  }

  lemma PartLookups(h: Header)
    ensures Field(PostgresJson(h), "serverVersion") == Some(JString(h.serverVersion))
    ensures Field(PostgresJson(h), "database") == Some(JString(h.database))
    ensures Field(DumpJson(h), "format") == Some(JString("pg_dump-custom"))
    ensures Field(DumpJson(h), "sha256") == Some(JString(h.dumpSha256))
    ensures Field(DumpJson(h), "bytes") == Some(JNumber(h.dumpBytes))
  {
    assert "format"[0] == 'f' && "sha256"[0] == 's' && "bytes"[0] == 'b';
  }

  lemma TablesReadBack(tables: map<string, nat>)
    ensures TablesJson(tables).fields.Keys == tables.Keys
    ensures (map t | t in TablesJson(tables).fields :: TablesJson(tables).fields[t].number) == tables
  {
  }

  /** Every header that is built is accepted after its trip through JSON, and reads as what was built. */
  lemma HeaderFieldsHold(rt: Runtime, h: Header)
    requires Sound(rt) && IsLabel(h.serverVersion) && IsLabel(h.database) && IsRowCounts(h.tables)
    requires IsSha256(h.dumpSha256) && IsCount(h.dumpBytes) && exists t :: h.createdAt == rt.isoDate(t)
    ensures HeaderFields(rt, HeaderJson(h))
  {
    HeaderLookups(h);
    PartLookups(h);
    TablesReadBack(h.tables);
    assert IsLabel("redis");
  }

  lemma BuiltHeaderIsAccepted(rt: Runtime, createdAt: int, serverVersion: string, database: string,
                              tables: map<string, nat>, sha: string, bytes: nat)
    requires Sound(rt)
    requires AssembleBundleHeader(rt, createdAt, serverVersion, database, tables, sha, bytes).Some?
    ensures
      var header := AssembleBundleHeader(rt, createdAt, serverVersion, database, tables, sha, bytes).value;
      CheckBundleHeader(rt, HeaderJson(header)) == Ok(header)
  {
    var header := AssembleBundleHeader(rt, createdAt, serverVersion, database, tables, sha, bytes).value;
    HeaderLookups(header);
    PartLookups(header);
    TablesReadBack(tables);
    HeaderFieldsHold(rt, header);
  }

  // ---------------------------------------------------------------- what import demands of the bytes, member by member

  ghost predicate Spells(bytes: Bytes, text: string) {
    |bytes| == |text| && forall i :: 0 <= i < |text| ==> bytes[i] == text[i] as int
  }

  /** The file is the magic line, one line of JSON text that ends within the first MiB, and the dump. */
  ghost predicate IsBundle(file: Bytes, json: Bytes, dump: Bytes) {
    && file == BUNDLE_MAGIC + [10] + json + [10] + dump && Spells(BUNDLE_MAGIC, "CERNERE-DATA-BUNDLE")
    && 10 !in json && 19 + 1 + |json| + 1 <= 1_048_576
  }

  /** value[field], where what is not there is null. */
  ghost function Member(value: Json, field: string): Json {
    if value.JObject? && field in value.fields then value.fields[field] else JNull
  }

  ghost predicate Labels(j: Json) {
    j.JString? && 1 <= |j.text| <= 256 && forall c :: c in j.text ==> c as int >= 0x20
  }

  ghost predicate Counts(j: Json) {
    j.JNumber? && 0 <= j.number <= 9_007_199_254_740_991
  }

  ghost predicate Hex64(j: Json) {
    j.JString? && |j.text| == 64 && forall c :: c in j.text ==> c in "0123456789abcdef"
  }

  ghost predicate CountsTables(j: Json, counts: map<string, nat>) {
    && j.JObject? && j.fields.Keys == counts.Keys
    && forall t :: t in counts ==> Labels(JString(t)) && Counts(j.fields[t]) && counts[t] == j.fields[t].number
  }

  /** The members that a header must have beside its service and its version, and the row counts among them. */
  ghost predicate Describes(rt: Runtime, j: Json, counts: map<string, nat>) {
    var postgres, dump, excluded := Member(j, "postgres"), Member(j, "dump"), Member(j, "excluded");
    && Member(j, "createdAt").JString? && rt.isDate(Member(j, "createdAt").text)
    && Labels(Member(postgres, "serverVersion")) && Labels(Member(postgres, "database"))
    && CountsTables(Member(j, "tables"), counts)
    && Member(dump, "format") == JString("pg_dump-custom")
    && Hex64(Member(dump, "sha256")) && Counts(Member(dump, "bytes"))
    && excluded.JArray? && forall item :: item in excluded.items ==> Labels(item)
  }

  ghost predicate OfThisService(j: Json) {
    j.JObject? && Member(j, "service") == JString("cernere")
  }

  ghost predicate OfThisFormat(j: Json) {
    OfThisService(j) && Member(j, "formatVersion") == JNumber(1)
  }

  ghost predicate HasDigest(rt: Runtime, j: Json, dump: Bytes) {
    && Member(Member(j, "dump"), "sha256") == JString(rt.sha256(dump))
    && Member(Member(j, "dump"), "bytes") == JNumber(|dump|)
  }

  /** The file is the expected one, and a bundle of this service and format whose header describes the dump. */
  ghost predicate Importable(rt: Runtime, file: Bytes, expectedSha256: string, dump: Bytes,
      counts: map<string, nat>) {
    && rt.sha256(file) == expectedSha256
    && exists json :: IsBundle(file, json, dump) && rt.parse(json).Some?
                      && (var j := rt.parse(json).value;
                          OfThisFormat(j) && Describes(rt, j, counts) && HasDigest(rt, j, dump))
  }

  /** The condition of each refusal; the first that applies, in this order, is the one that is made. */
  ghost predicate RefusedFor(rt: Runtime, file: Bytes, expectedSha256: string, reason: BundleError) {
    if reason.Sha256Mismatch? then rt.sha256(file) != expectedSha256
    else rt.sha256(file) == expectedSha256 && RefusedBundle(rt, file, reason)
  }

  ghost predicate RefusedBundle(rt: Runtime, file: Bytes, reason: BundleError) {
    if reason.BundleInvalid? then
      forall json, dump :: IsBundle(file, json, dump) ==>
        rt.parse(json).None? || RefusedHeader(rt, rt.parse(json).value)
    else
      exists json, dump :: IsBundle(file, json, dump) && rt.parse(json).Some?
                           && RefusedObject(rt, rt.parse(json).value, dump, reason)
  }

  ghost predicate RefusedHeader(rt: Runtime, j: Json) {
    !j.JObject? || (OfThisFormat(j) && forall counts :: !Describes(rt, j, counts))
  }

  ghost predicate RefusedObject(rt: Runtime, j: Json, dump: Bytes, reason: BundleError) {
    match reason
    case ServiceMismatch => j.JObject? && !OfThisService(j)
    case FormatUnsupported => OfThisService(j) && !OfThisFormat(j)
    case DumpSha256Mismatch =>
      OfThisFormat(j) && !HasDigest(rt, j, dump) && exists counts :: Describes(rt, j, counts)
    case _ => false
  }

  lemma HexDigits(text: string)
    ensures IsSha256(text) <==> Hex64(JString(text))
  {
    var digits := "0123456789abcdef";
    assert forall c: char :: c in digits <==> '0' <= c <= '9' || 'a' <= c <= 'f' by {
      forall c: char | '0' <= c <= '9' || 'a' <= c <= 'f' ensures c in digits {
        var i := if c <= '9' then c as int - '0' as int else 10 + c as int - 'a' as int;
        assert digits[i] == c;
      }
    }
    assert IsSha256(text) ==> forall c :: c in text ==> '0' <= c <= '9' || 'a' <= c <= 'f';
    assert Hex64(JString(text)) ==> forall i :: 0 <= i < 64 ==> text[i] in text;
  }

  lemma LabelCharacters(text: string)
    ensures IsLabel(text) <==> Labels(JString(text))
  {
    assert Labels(JString(text)) ==> forall i :: 0 <= i < |text| ==> text[i] in text;
  }

  ghost function TablesOf(j: Json): map<string, nat>
    requires IsRowCountsJson(Field(j, "tables"))
  {
    map t | t in j.fields["tables"].fields :: j.fields["tables"].fields[t].number
  }

  lemma DescribedHasFields(rt: Runtime, j: Json, counts: map<string, nat>)
    requires j.JObject? && Describes(rt, j, counts)
    ensures HeaderFields(rt, j) && counts == TablesOf(j)
  {
    var tables, dump := j.fields["tables"].fields, j.fields["dump"];
    LabelCharacters(Member(Member(j, "postgres"), "serverVersion").text);
    LabelCharacters(Member(Member(j, "postgres"), "database").text);
    HexDigits(Member(dump, "sha256").text);
    forall t | t in tables ensures IsLabel(t) && IsCountField(Some(tables[t])) { LabelCharacters(t); }
    var items := j.fields["excluded"].items;
    forall i | 0 <= i < |items| ensures IsLabelField(Some(items[i])) {
      assert items[i] in items;
      LabelCharacters(items[i].text);
    }
  }

  lemma FieldsDescribe(rt: Runtime, j: Json)
    requires j.JObject? && HeaderFields(rt, j)
    ensures Describes(rt, j, TablesOf(j))
  {
    var tables, dump := j.fields["tables"].fields, j.fields["dump"];
    LabelCharacters(Member(Member(j, "postgres"), "serverVersion").text);
    LabelCharacters(Member(Member(j, "postgres"), "database").text);
    HexDigits(Member(dump, "sha256").text);
    forall t | t in tables ensures Labels(JString(t)) && Counts(tables[t]) {
      assert IsCountField(Some(tables[t]));
      LabelCharacters(t);
    }
    var items := j.fields["excluded"].items;
    forall item | item in items ensures Labels(item) {
      assert IsLabelField(Some(item));
      LabelCharacters(item.text);
    }
  }

  /** The verdict on a header as its members decide it. */
  lemma HeaderVerdict(rt: Runtime, j: Json)
    ensures CheckBundleHeader(rt, j) == Err(BundleInvalid) <==> RefusedHeader(rt, j)
    ensures CheckBundleHeader(rt, j) == Err(ServiceMismatch) <==> j.JObject? && !OfThisService(j)
    ensures CheckBundleHeader(rt, j) == Err(FormatUnsupported) <==> OfThisService(j) && !OfThisFormat(j)
    ensures CheckBundleHeader(rt, j).Ok? <==> OfThisFormat(j) && exists counts :: Describes(rt, j, counts)
    ensures CheckBundleHeader(rt, j).Ok? ==>
      var header := CheckBundleHeader(rt, j).value;
      && (forall counts :: Describes(rt, j, counts) <==> counts == header.tables)
      && Member(Member(j, "dump"), "sha256") == JString(header.dumpSha256)
      && Member(Member(j, "dump"), "bytes") == JNumber(header.dumpBytes)
  {
    forall counts | j.JObject? && Describes(rt, j, counts) ensures HeaderFields(rt, j) && counts == TablesOf(j) {
      DescribedHasFields(rt, j, counts);
    }
    if j.JObject? && HeaderFields(rt, j) { FieldsDescribe(rt, j); }
  }

  // ---------------------------------------------------------------- the file format

  function Preamble(rt: Runtime, header: Header): Bytes {
    BUNDLE_MAGIC + [NEWLINE] + rt.stringify(HeaderJson(header)) + [NEWLINE]
  }

  function BundleBytes(rt: Runtime, header: Header, dump: Bytes): Bytes {
    Preamble(rt, header) + dump
  }

  datatype Opened = Opened(header: Json, dumpOffset: nat)

  /** readBundlePreamble: only the first MAX_PREAMBLE_BYTES are read. */
  function ReadBundlePreamble(rt: Runtime, file: Bytes): (r: Result<Opened, BundleError>)
    ensures r.Ok? ==> r.value.dumpOffset <= |file|
  {
    OpenText(rt, if |file| <= MAX_PREAMBLE_BYTES then file else file[..MAX_PREAMBLE_BYTES])
  }

  function OpenText(rt: Runtime, text: Bytes): (r: Result<Opened, BundleError>)
    ensures r.Ok? ==> r.value.dumpOffset <= |text|
  {
    var magicEnd := IndexOf(text, NEWLINE, 0);
    if magicEnd.None? || text[..magicEnd.value] != BUNDLE_MAGIC then Err(BundleInvalid) else
    var headerEnd := IndexOf(text, NEWLINE, magicEnd.value + 1);
    if headerEnd.None? then Err(BundleInvalid) else
    var header := rt.parse(text[magicEnd.value + 1..headerEnd.value]);
    if header.None? then Err(BundleInvalid) else Ok(Opened(header.value, headerEnd.value + 1))
  }

  /** The text begins with the line: `at` is where it starts, and its newline follows unless the text ends before. */
  ghost predicate LineAt(text: Bytes, at: nat, line: Bytes) {
    && NEWLINE !in line
    && (forall i :: at <= i < |text| && i < at + |line| ==> text[i] == line[i - at])
    && (at + |line| < |text| ==> text[at + |line|] == NEWLINE)
  }

  lemma LineEnds(text: Bytes, at: nat, line: Bytes)
    requires LineAt(text, at, line)
    ensures IndexOf(text, NEWLINE, at) == if at + |line| < |text| then Some(at + |line|) else None
    ensures at + |line| < |text| ==> text[at..at + |line|] == line
  {
    assert forall i :: at <= i < |text| && i < at + |line| ==> text[i] == line[i - at] && line[i - at] in line;
    if at + |line| < |text| {
      IndexOfFirst(text, NEWLINE, at + |line|, at);
    } else {
      IndexOfNone(text, NEWLINE, at);
    }
  }

  lemma TwoLinesOpen(rt: Runtime, text: Bytes, json: Bytes)
    requires |BUNDLE_MAGIC| < |text|
    requires LineAt(text, 0, BUNDLE_MAGIC) && LineAt(text, |BUNDLE_MAGIC| + 1, json)
    ensures
      var offset := |BUNDLE_MAGIC| + 1 + |json| + 1;
      OpenText(rt, text)
      == if offset <= |text| && rt.parse(json).Some? then Ok(Opened(rt.parse(json).value, offset))
         else Err(BundleInvalid)
  {
    LineEnds(text, 0, BUNDLE_MAGIC);
    LineEnds(text, |BUNDLE_MAGIC| + 1, json);
    assert text[0..|BUNDLE_MAGIC|] == text[..|BUNDLE_MAGIC|];
  }

  lemma BeginningHasTwoLines(magic: Bytes, json: Bytes, dump: Bytes, n: nat)
    requires NEWLINE !in magic && NEWLINE !in json && n <= |magic + [NEWLINE] + json + [NEWLINE] + dump|
    ensures LineAt((magic + [NEWLINE] + json + [NEWLINE] + dump)[..n], 0, magic)
    ensures LineAt((magic + [NEWLINE] + json + [NEWLINE] + dump)[..n], |magic| + 1, json)
  {
  }

  lemma MagicIsOneLine()
    ensures NEWLINE !in BUNDLE_MAGIC && |BUNDLE_MAGIC| < MAX_PREAMBLE_BYTES
  {
  }

  /**
   A written bundle reads back as the same header and an offset from which the bytes are exactly the dump,
   exactly when its preamble fits the first MiB; a longer one is not recognised as a bundle.
   */
  lemma BundleReadsBack(rt: Runtime, header: Header, dump: Bytes)
    requires Sound(rt)
    ensures
      var file := BundleBytes(rt, header, dump);
      if |Preamble(rt, header)| <= MAX_PREAMBLE_BYTES then
        && ReadBundlePreamble(rt, file) == Ok(Opened(HeaderJson(header), |Preamble(rt, header)|))
        && file[|Preamble(rt, header)|..] == dump
      else
        ReadBundlePreamble(rt, file) == Err(BundleInvalid)
  {
    var json, file := rt.stringify(HeaderJson(header)), BundleBytes(rt, header, dump);
    var text := if |file| <= MAX_PREAMBLE_BYTES then file else file[..MAX_PREAMBLE_BYTES];
    MagicIsOneLine();
    assert text == file[..|text|];
    BeginningHasTwoLines(BUNDLE_MAGIC, json, dump, |text|);
    TwoLinesOpen(rt, text, json);
  }

  /** Which headers are built, and what each of their members says. */
  lemma BuiltHeaderExactly(rt: Runtime, createdAt: int, serverVersion: string, database: string,
                           tables: map<string, nat>, dump: Bytes)
    requires Sound(rt)
    ensures
      var header := AssembleBundleHeader(rt, createdAt, serverVersion, database, tables, rt.sha256(dump), |dump|);
      && (header.Some? <==>
            && Labels(JString(serverVersion)) && Labels(JString(database)) && Counts(JNumber(|dump|))
            && forall t :: t in tables ==> Labels(JString(t)) && Counts(JNumber(tables[t])))
      && (header.Some? ==>
            var j := HeaderJson(header.value);
            && OfThisFormat(j) && Describes(rt, j, tables) && HasDigest(rt, j, dump)
            && Member(j, "createdAt") == JString(rt.isoDate(createdAt))
            && Member(Member(j, "postgres"), "serverVersion") == JString(serverVersion)
            && Member(Member(j, "postgres"), "database") == JString(database)
            && Member(j, "excluded") == JArray([JString("redis")]))
  {
    LabelCharacters(serverVersion);
    LabelCharacters(database);
    forall t ensures IsLabel(t) <==> Labels(JString(t)) { LabelCharacters(t); }
    var header := AssembleBundleHeader(rt, createdAt, serverVersion, database, tables, rt.sha256(dump), |dump|);
    if header.Some? {
      HeaderLookups(header.value);
      PartLookups(header.value);
      BuiltHeaderIsAccepted(rt, createdAt, serverVersion, database, tables, rt.sha256(dump), |dump|);
      HeaderVerdict(rt, HeaderJson(header.value));
      assert Describes(rt, HeaderJson(header.value), header.value.tables);
    }
  }

  // ---------------------------------------------------------------- files

  class FileSystem {
    var files: map<string, Bytes>

    constructor (files: map<string, Bytes>)
      ensures this.files == files
    {
      this.files := files;
    }
  }

  datatype FileDigest = FileDigest(sha256: string, bytes: nat)

  function Concat(chunks: seq<Bytes>): Bytes {
    if chunks == [] then [] else Concat(chunks[..|chunks| - 1]) + chunks[|chunks| - 1]
  }

  /** digestFile: a stream's chunks, however they are cut, give the digest and length of what it contains. */
  method DigestFile(rt: Runtime, chunks: seq<Bytes>) returns (digest: FileDigest)
    ensures digest == FileDigest(rt.sha256(Concat(chunks)), |Concat(chunks)|)
  {
    var hashed: Bytes, bytes := [], 0;
    for i := 0 to |chunks|
      invariant hashed == Concat(chunks[..i]) && bytes == |hashed|
    {
      assert chunks[..i + 1][..i] == chunks[..i];
      hashed := hashed + chunks[i];
      bytes := bytes + |chunks[i]|;
    }
    assert chunks[..|chunks|] == chunks;
    digest := FileDigest(rt.sha256(hashed), bytes);
  }

  /** How one writeBundle goes: after how many bytes it fails, if it does, and whether unlink works then. */
  datatype WriteFate = WriteFate(failsAfter: Option<nat>, unlinkWorks: bool)

  datatype WriteError = OutputExists | WriteFailed

  /** writeBundle: creates the file exclusively, and removes what it wrote when it fails. */
  method WriteBundle(rt: Runtime, fs: FileSystem, output: string, header: Header, dump: Bytes, fate: WriteFate)
    returns (result: Result<(), WriteError>)
    modifies fs
    ensures output in old(fs.files) ==> result == Err(OutputExists) && fs.files == old(fs.files)
    ensures output !in old(fs.files) && fate.failsAfter.None? ==>
      result.Ok? && fs.files == old(fs.files)[output := BundleBytes(rt, header, dump)]
    ensures output !in old(fs.files) && fate.failsAfter.Some? ==>
      result == Err(WriteFailed)
      && if fate.unlinkWorks then fs.files == old(fs.files) else
           var bytes := BundleBytes(rt, header, dump);
           && output in fs.files && fs.files == old(fs.files)[output := fs.files[output]] && fs.files[output] <= bytes
           && |fs.files[output]| == if fate.failsAfter.value < |bytes| then fate.failsAfter.value else |bytes|
  {
    if output in fs.files { return Err(OutputExists); }
    ghost var before := fs.files;
    var bytes := BundleBytes(rt, header, dump);
    if fate.failsAfter.Some? {
      var n := if fate.failsAfter.value <= |bytes| then fate.failsAfter.value else |bytes|;
      fs.files := fs.files[output := bytes[..n]];
      assert fs.files - {output} == before;
      if fate.unlinkWorks { fs.files := fs.files - {output}; }
      return Err(WriteFailed);
    }
    fs.files := fs.files[output := bytes];
    result := Ok(());
  }

  // ---------------------------------------------------------------- export

  /**
   What happens during one export. The contents may change between the counts and the dump; `dumpFails` tells how
   much a failing pg_dump leaves behind, and calls answer or fail.
   */
  datatype ExportScript = ExportScript(
    beforeAnswers: bool, versionAnswers: bool, dumpFails: Option<Bytes>, afterAnswers: bool,
    atBefore: Contents, atDump: Contents, atAfter: Contents,
    createdAt: int, serverVersion: string, database: string,
    write: WriteFate, partialUnlinkWorks: bool)

  datatype ExportError = PathTaken | StepFailed | DatabaseChanged | HeaderInput | BundleNotWritten

  function PartialPath(output: string): string {
    output + ".pgdump.partial"
  }

  ghost function ExportedHeader(rt: Runtime, s: ExportScript): Option<Header> {
    var dump := rt.dump(s.atDump);
    AssembleBundleHeader(rt, s.createdAt, s.serverVersion, s.database, RowCountsOf(s.atBefore), rt.sha256(dump), |dump|)
  }

  ghost predicate CallsAnswer(s: ExportScript) {
    s.beforeAnswers && s.versionAnswers && s.dumpFails.None? && s.afterAnswers
  }

  /** Every call answers, nothing fails to be written, and the counts after the dump are those before it. */
  ghost predicate Undisturbed(rt: Runtime, s: ExportScript) {
    && CallsAnswer(s) && RowCountsOf(s.atBefore) == RowCountsOf(s.atAfter)
    && ExportedHeader(rt, s).Some? && s.write.failsAfter.None?
  }

  /** What an export that found its paths free is refused for. */
  ghost predicate FailedFor(rt: Runtime, s: ExportScript, error: ExportError) {
    match error
    case PathTaken => false
    case StepFailed => !CallsAnswer(s)
    case DatabaseChanged => CallsAnswer(s) && RowCountsOf(s.atBefore) != RowCountsOf(s.atAfter)
    case HeaderInput =>
      CallsAnswer(s) && RowCountsOf(s.atBefore) == RowCountsOf(s.atAfter) && ExportedHeader(rt, s).None?
    case BundleNotWritten =>
      && CallsAnswer(s) && RowCountsOf(s.atBefore) == RowCountsOf(s.atAfter) && ExportedHeader(rt, s).Some?
      && s.write.failsAfter.Some?
  }

  lemma OneCause(rt: Runtime, s: ExportScript, error: ExportError, other: ExportError)
    requires FailedFor(rt, s, error)
    ensures !Undisturbed(rt, s) && (FailedFor(rt, s, other) <==> other == error)
  {
  }

  lemma PartialComesAndGoes(files: map<string, Bytes>, partial: string, output: string, dump: Bytes)
    requires partial !in files && output !in files
    ensures files[partial := dump] - {partial} == files
    ensures files[partial := dump] - {partial, output} == files
  {
  }

  lemma BundleBesidePartial(before: map<string, Bytes>, partial: string, output: string, dump: Bytes, bytes: Bytes,
      after: map<string, Bytes>)
    requires partial !in before && output !in before && partial != output
    ensures before[partial := dump][output := bytes] - {partial} == before[output := bytes]
    ensures after - {output} == before[partial := dump] ==> after - {partial, output} == before
  {
    if after - {output} == before[partial := dump] {
      assert after - {partial, output} == before[partial := dump] - {partial};
    }
  }

  /** The try block of exportData. */
  method ExportBody(rt: Runtime, fs: FileSystem, output: string, s: ExportScript)
    returns (result: Result<Header, ExportError>)
    requires output !in fs.files && PartialPath(output) !in fs.files
    modifies fs
    ensures result.Ok? <==> Undisturbed(rt, s)
    ensures result.Ok? ==>
      && ExportedHeader(rt, s) == Some(result.value)
      && fs.files - {PartialPath(output)} == old(fs.files)[output := BundleBytes(rt, result.value, rt.dump(s.atDump))]
    ensures result.Err? ==> FailedFor(rt, s, result.error)
    ensures result.Err? ==> fs.files - {PartialPath(output), output} == old(fs.files)
    ensures result.Err? && output in fs.files ==> result.error.BundleNotWritten? && !s.write.unlinkWorks
  {
    var partial := PartialPath(output);
    assert partial != output by { assert |partial| > |output|; }
    ghost var before := fs.files;
    assert before - {partial, output} == before;
    if !s.beforeAnswers || !s.versionAnswers { return Err(StepFailed); }
    if s.dumpFails.Some? {
      fs.files := fs.files[partial := s.dumpFails.value];
      PartialComesAndGoes(before, partial, output, s.dumpFails.value);
      return Err(StepFailed);
    }
    var dump := rt.dump(s.atDump);
    fs.files := fs.files[partial := dump];
    PartialComesAndGoes(before, partial, output, dump);
    if !s.afterAnswers { return Err(StepFailed); }
    NoMismatchMeansEqual(RowCountsOf(s.atBefore), RowCountsOf(s.atAfter));
    if DiffRowCounts(RowCountsOf(s.atBefore), RowCountsOf(s.atAfter)) != {} { return Err(DatabaseChanged); }
    var digest := DigestFile(rt, [dump]);
    assert Concat([dump]) == dump by { assert Concat([dump][..0]) == []; }
    var header := AssembleBundleHeader(rt, s.createdAt, s.serverVersion, s.database, RowCountsOf(s.atBefore),
                                       digest.sha256, digest.bytes);
    if header.None? { return Err(HeaderInput); }
    var written := WriteBundle(rt, fs, output, header.value, dump, s.write);
    BundleBesidePartial(before, partial, output, dump, BundleBytes(rt, header.value, dump), fs.files);
    if written.Err? { return Err(BundleNotWritten); }
    result := Ok(header.value);
  }

  /**
   exportData: the partial dump is always removed if it can be; a failed export leaves nothing else, unless unlink
   failed.
   */
  method ExportData(rt: Runtime, fs: FileSystem, output: string, s: ExportScript)
    returns (result: Result<Header, ExportError>)
    modifies fs
    ensures result == Err(PathTaken) <==> output in old(fs.files) || PartialPath(output) in old(fs.files)
    ensures result == Err(PathTaken) ==> fs.files == old(fs.files)
    ensures result.Ok? <==> !(output in old(fs.files) || PartialPath(output) in old(fs.files)) && Undisturbed(rt, s)
    ensures output !in old(fs.files) && PartialPath(output) !in old(fs.files) ==>
      forall error :: result == Err(error) <==> FailedFor(rt, s, error)
    ensures result.Ok? ==>
      && ExportedHeader(rt, s) == Some(result.value)
      && output in fs.files && fs.files[output] == BundleBytes(rt, result.value, rt.dump(s.atDump))
    ensures result.Err? && s.partialUnlinkWorks && s.write.unlinkWorks ==> fs.files == old(fs.files)
    ensures result.Ok? && s.partialUnlinkWorks ==> fs.files - {output} == old(fs.files)
  {
    if output in fs.files || PartialPath(output) in fs.files { return Err(PathTaken); }
    ghost var before := fs.files;
    result := ExportBody(rt, fs, output, s);
    forall error ensures result == Err(error) <==> FailedFor(rt, s, error) {
      if result.Err? { OneCause(rt, s, result.error, error); }
    }
    ghost var written := fs.files;
    assert PartialPath(output) != output by { assert |PartialPath(output)| > |output|; }
    if s.partialUnlinkWorks {
      fs.files := fs.files - {PartialPath(output)};
      assert result.Err? && output !in written ==> fs.files == written - {PartialPath(output), output};
      assert result.Ok? ==> fs.files - {output} == before;
    } else {
      assert result.Ok? ==> output in written - {PartialPath(output)};
      assert result.Ok? ==> (written - {PartialPath(output)})[output] == written[output];
    }
  }

  // ---------------------------------------------------------------- import

  /** The checks of importData, in order; Ok is what goes to the restore. */
  function ImportPlan(rt: Runtime, file: Bytes, expectedSha256: string,
      databaseName: string): Result<Plan, BundleError> {
    if rt.sha256(file) != expectedSha256 then Err(Sha256Mismatch) else
    var start := ReadBundlePreamble(rt, file);
    if start.Err? then Err(start.error) else
    var header := CheckBundleHeader(rt, start.value.header);
    if header.Err? then Err(header.error) else
    var dump := file[start.value.dumpOffset..];
    if rt.sha256(dump) != header.value.dumpSha256 || |dump| != header.value.dumpBytes then Err(DumpSha256Mismatch)
    else Ok(Plan(databaseName, rt.load(dump), header.value.tables))
  }

  lemma BundleOpens(rt: Runtime, file: Bytes, json: Bytes, dump: Bytes)
    requires IsBundle(file, json, dump)
    ensures ReadBundlePreamble(rt, file)
            == if rt.parse(json).Some? then Ok(Opened(rt.parse(json).value, 21 + |json|)) else Err(BundleInvalid)
    ensures file[21 + |json|..] == dump
  {
    var text := if |file| <= MAX_PREAMBLE_BYTES then file else file[..MAX_PREAMBLE_BYTES];
    assert text == file[..|text|];
    MagicIsOneLine();
    BeginningHasTwoLines(BUNDLE_MAGIC, json, dump, |text|);
    TwoLinesOpen(rt, text, json);
  }

  lemma TwoCuts(bytes: Bytes, i: nat, j: nat)
    requires i < j < |bytes|
    ensures bytes == bytes[..i] + [bytes[i]] + bytes[i + 1..j] + [bytes[j]] + bytes[j + 1..]
  {
  }

  /** A text that opens begins with the magic line and a line of JSON text. */
  lemma OpenedText(rt: Runtime, text: Bytes)
    requires OpenText(rt, text).Ok?
    ensures
      var headerEnd := OpenText(rt, text).value.dumpOffset - 1;
      && 20 <= headerEnd < |text| && text[..19] == BUNDLE_MAGIC && text[19] == 10 && text[headerEnd] == 10
      && 10 !in text[20..headerEnd] && rt.parse(text[20..headerEnd]) == Some(OpenText(rt, text).value.header)
  {
    var magicEnd := IndexOf(text, NEWLINE, 0).value;
    assert |text[..magicEnd]| == |BUNDLE_MAGIC| == 19;
  }

  lemma BeginningIsBundle(file: Bytes, text: Bytes, headerEnd: nat)
    requires text <= file && 20 <= headerEnd < |text| <= MAX_PREAMBLE_BYTES
    requires text[..19] == BUNDLE_MAGIC && text[19] == 10 && text[headerEnd] == 10 && 10 !in text[20..headerEnd]
    ensures text[20..headerEnd] == file[20..headerEnd]
    ensures IsBundle(file, file[20..headerEnd], file[headerEnd + 1..])
  {
    assert file[..19] == text[..19] && file[20..headerEnd] == text[20..headerEnd];
    TwoCuts(file, 19, headerEnd);
  }

  lemma OpenedIsBundle(rt: Runtime, file: Bytes)
    requires ReadBundlePreamble(rt, file).Ok?
    ensures
      var offset := ReadBundlePreamble(rt, file).value.dumpOffset;
      && 21 <= offset <= |file| && IsBundle(file, file[20..offset - 1], file[offset..])
      && rt.parse(file[20..offset - 1]) == Some(ReadBundlePreamble(rt, file).value.header)
  {
    var text := if |file| <= MAX_PREAMBLE_BYTES then file else file[..MAX_PREAMBLE_BYTES];
    OpenedText(rt, text);
    BeginningIsBundle(file, text, ReadBundlePreamble(rt, file).value.dumpOffset - 1);
  }

  /** What import makes of a file that is a bundle. */
  ghost predicate Judged(rt: Runtime, json: Bytes, dump: Bytes, name: string, plan: Result<Plan, BundleError>) {
    match rt.parse(json)
    case None => plan == Err(BundleInvalid)
    case Some(j) =>
      match plan
      case Err(Sha256Mismatch) => false
      case Err(BundleInvalid) => RefusedHeader(rt, j)
      case Err(reason) => RefusedObject(rt, j, dump, reason)
      case Ok(plan) =>
        && OfThisFormat(j) && HasDigest(rt, j, dump) && plan == Plan(name, rt.load(dump), plan.expectedCounts)
        && forall counts :: Describes(rt, j, counts) <==> counts == plan.expectedCounts
  }

  lemma BundleIsJudged(rt: Runtime, file: Bytes, json: Bytes, dump: Bytes, name: string)
    requires IsBundle(file, json, dump)
    ensures Judged(rt, json, dump, name, ImportPlan(rt, file, rt.sha256(file), name))
  {
    BundleOpens(rt, file, json, dump);
    if rt.parse(json).Some? { HeaderVerdict(rt, rt.parse(json).value); }
  }

  /** One verdict at most fits a bundle. */
  lemma JudgedOnce(rt: Runtime, json: Bytes, dump: Bytes, name: string, plan: Result<Plan, BundleError>)
    requires Judged(rt, json, dump, name, plan)
    ensures rt.parse(json).None? || RefusedHeader(rt, rt.parse(json).value) <==> plan == Err(BundleInvalid)
    ensures forall reason :: rt.parse(json).Some? && RefusedObject(rt, rt.parse(json).value, dump, reason)
                             ==> plan == Err(reason)
    ensures forall counts :: rt.parse(json).Some? && OfThisFormat(rt.parse(json).value)
                             && Describes(rt, rt.parse(json).value, counts) && HasDigest(rt, rt.parse(json).value, dump)
                             ==> plan == Ok(Plan(name, rt.load(dump), counts))
  {
    if plan.Ok? { assert Describes(rt, rt.parse(json).value, plan.value.expectedCounts); }
  }

  lemma ImportableIsPlanned(rt: Runtime, file: Bytes, name: string, dump: Bytes, counts: map<string, nat>)
    requires Importable(rt, file, rt.sha256(file), dump, counts)
    ensures ImportPlan(rt, file, rt.sha256(file), name) == Ok(Plan(name, rt.load(dump), counts))
  {
    var json :| IsBundle(file, json, dump) && rt.parse(json).Some?
                && (var j := rt.parse(json).value;
                    OfThisFormat(j) && Describes(rt, j, counts) && HasDigest(rt, j, dump));
    BundleIsJudged(rt, file, json, dump, name);
    JudgedOnce(rt, json, dump, name, ImportPlan(rt, file, rt.sha256(file), name));
  }

  lemma PlannedIsImportable(rt: Runtime, file: Bytes, name: string)
    requires ImportPlan(rt, file, rt.sha256(file), name).Ok?
    ensures exists dump, counts :: Importable(rt, file, rt.sha256(file), dump, counts)
  {
    var offset := ReadBundlePreamble(rt, file).value.dumpOffset;
    var counts := ImportPlan(rt, file, rt.sha256(file), name).value.expectedCounts;
    OpenedIsBundle(rt, file);
    BundleIsJudged(rt, file, file[20..offset - 1], file[offset..], name);
    assert Describes(rt, ReadBundlePreamble(rt, file).value.header, counts);
    assert Importable(rt, file, rt.sha256(file), file[offset..], counts);
  }

  lemma RefusedExactly(rt: Runtime, file: Bytes, name: string, reason: BundleError)
    ensures ImportPlan(rt, file, rt.sha256(file), name) == Err(reason)
            <==> !reason.Sha256Mismatch? && RefusedBundle(rt, file, reason)
  {
    var plan := ImportPlan(rt, file, rt.sha256(file), name);
    forall json, dump | IsBundle(file, json, dump) ensures Judged(rt, json, dump, name, plan)
      ensures rt.parse(json).None? || RefusedHeader(rt, rt.parse(json).value) <==> plan == Err(BundleInvalid)
      ensures rt.parse(json).Some? && RefusedObject(rt, rt.parse(json).value, dump, reason) ==> plan == Err(reason)
    {
      BundleIsJudged(rt, file, json, dump, name);
      JudgedOnce(rt, json, dump, name, plan);
    }
    if ReadBundlePreamble(rt, file).Ok? { OpenedIsBundle(rt, file); }
  }

  /** The checks of import, over the bytes of the file. */
  lemma ImportPlanExactly(rt: Runtime, file: Bytes, expectedSha256: string, name: string)
    ensures
      var plan := ImportPlan(rt, file, expectedSha256, name);
      && (forall reason :: plan == Err(reason) <==> RefusedFor(rt, file, expectedSha256, reason))
      && forall dump, counts :: Importable(rt, file, expectedSha256, dump, counts) ==>
           plan == Ok(Plan(name, rt.load(dump), counts))
    ensures ImportPlan(rt, file, expectedSha256, name).Ok? ==>
      exists dump, counts :: Importable(rt, file, expectedSha256, dump, counts)
  {
    var plan := ImportPlan(rt, file, expectedSha256, name);
    if rt.sha256(file) == expectedSha256 {
      forall reason ensures plan == Err(reason) <==> RefusedFor(rt, file, expectedSha256, reason) {
        RefusedExactly(rt, file, name, reason);
      }
      forall dump, counts | Importable(rt, file, expectedSha256, dump, counts)
        ensures plan == Ok(Plan(name, rt.load(dump), counts))
      {
        ImportableIsPlanned(rt, file, name, dump, counts);
      }
      if plan.Ok? { PlannedIsImportable(rt, file, name); }
    }
  }

  datatype ImportError = Rejected(reason: BundleError) | NotRestored(code: ErrorCode)

  /** importData: every check finishes before the first database change. */
  method ImportData(rt: Runtime, file: Bytes, expectedSha256: string, databaseName: string, db: SiteDatabase,
      script: Script)
    returns (result: Result<Option<string>, ImportError>)
    requires script.backupName != Some(databaseName)
    modifies db
    ensures forall reason :: result == Err(Rejected(reason)) <==> RefusedFor(rt, file, expectedSha256, reason)
    ensures result.Err? && result.error.Rejected? ==> db.databases == old(db.databases)
    ensures result.Ok? || db.databases != old(db.databases) ==>
      exists dump, counts :: Importable(rt, file, expectedSha256, dump, counts)
    ensures forall dump, counts :: Importable(rt, file, expectedSha256, dump, counts) ==>
      && (result.Ok? <==> Smooth(old(db.databases), Plan(databaseName, rt.load(dump), counts), script))
      && (result.Ok? ==> && databaseName in db.databases && rt.load(dump) == Some(db.databases[databaseName])
                         && RowCountsOf(db.databases[databaseName]) == counts)
    ensures Survives(old(db.databases), db.databases, databaseName, script)
    ensures OthersKept(old(db.databases), db.databases, databaseName, script)
  {
    var plan := ImportPlan(rt, file, expectedSha256, databaseName);
    ImportPlanExactly(rt, file, expectedSha256, databaseName);
    if plan.Err? { return Err(Rejected(plan.error)); }
    var restored := RestoreDatabase(db, plan.value, script);
    result := if restored.Ok? then Ok(restored.value) else Err(NotRestored(restored.error));
  }

  /**
   A bundle that export made passes every check of import, with the counts taken before the dump. The dumped contents
   may differ from them: the contents can change between the count and the dump and change back.
   */
  lemma ExportedBundleImports(rt: Runtime, s: ExportScript)
    requires Sound(rt)
    requires ExportedHeader(rt, s).Some? && |Preamble(rt, ExportedHeader(rt, s).value)| <= MAX_PREAMBLE_BYTES
    ensures
      var file := BundleBytes(rt, ExportedHeader(rt, s).value, rt.dump(s.atDump));
      Importable(rt, file, rt.sha256(file), rt.dump(s.atDump), RowCountsOf(s.atBefore))
  {
    var dump, header := rt.dump(s.atDump), ExportedHeader(rt, s).value;
    var json := rt.stringify(HeaderJson(header));
    assert IsBundle(BundleBytes(rt, header, dump), json, dump);
    BuiltHeaderExactly(rt, s.createdAt, s.serverVersion, s.database, RowCountsOf(s.atBefore), dump);
  }

  /** And one whose preamble is too long is refused. */
  lemma LongPreambleIsRefused(rt: Runtime, header: Header, dump: Bytes)
    requires Sound(rt) && |Preamble(rt, header)| > MAX_PREAMBLE_BYTES
    ensures
      var file := BundleBytes(rt, header, dump);
      RefusedFor(rt, file, rt.sha256(file), BundleInvalid)
  {
    var file := BundleBytes(rt, header, dump);
    BundleReadsBack(rt, header, dump);
    ImportPlanExactly(rt, file, rt.sha256(file), "");
  }

  /** The target's side of an import of dumped contents: nothing on the way fails and the backup name is free. */
  ghost predicate Unhindered(before: map<string, Contents>, databaseName: string, image: Contents, script: Script) {
    Smooth(before, Plan(databaseName, Some(image), RowCountsOf(image)), script)
  }

  /**
   Import after export: it succeeds exactly when neither side is disturbed, the header fits the preamble, and the dumped
   contents have the counts taken before the dump; then the target holds the dumped contents.
   */
  method ExportThenImport(rt: Runtime, fs: FileSystem, output: string, s: ExportScript,
                          db: SiteDatabase, databaseName: string, script: Script)
    returns (exported: bool, moved: bool)
    requires Sound(rt) && script.backupName != Some(databaseName)
    modifies fs, db
    ensures exported <==> output !in old(fs.files) && PartialPath(output) !in old(fs.files) && Undisturbed(rt, s)
    ensures moved ==> databaseName in db.databases && db.databases[databaseName] == s.atDump
    ensures moved <==>
      && exported
      && |Preamble(rt, ExportedHeader(rt, s).value)| <= MAX_PREAMBLE_BYTES
      && Unhindered(old(db.databases), databaseName, s.atDump, script)
      && RowCountsOf(s.atDump) == RowCountsOf(s.atBefore)
    ensures Survives(old(db.databases), db.databases, databaseName, script)
  {
    var written := ExportData(rt, fs, output, s);
    if written.Err? { return false, false; }
    var file := fs.files[output];
    var imported := ImportData(rt, file, rt.sha256(file), databaseName, db, script);
    if |Preamble(rt, written.value)| <= MAX_PREAMBLE_BYTES {
      ExportedBundleImports(rt, s);
    } else {
      LongPreambleIsRefused(rt, written.value, rt.dump(s.atDump));
    }
    exported, moved := true, imported.Ok?;
  }

  // ---------------------------------------------------------------- where the round trip fails

  /** A script in which nothing fails on either side. */
  function CalmExport(atBefore: Contents, atDump: Contents, atAfter: Contents): ExportScript {
    ExportScript(true, true, None, true, atBefore, atDump, atAfter, 0, "17", "cernere", WriteFate(None, true), true)
  }

  const CALM_RESTORE := Script(Some("cernere_backup"), true, true, Done, Done, Loaded, true, Done, Done)

  /**
   A row that is deleted after the first count and inserted again before the second: export succeeds and import,
   undisturbed, refuses the bundle, although both counts of the export agree.
   */
  method CountsThatChangeBack(rt: Runtime) returns (exported: bool, moved: bool)
    requires Sound(rt)
    requires |rt.dump(Contents(map["users" := []]))| <= MAX_SAFE_INTEGER
    ensures exported && !moved
  {
    var full, emptied := Contents(map["users" := ["row"]]), Contents(map["users" := []]);
    var s := CalmExport(full, emptied, full);
    assert RowCountsOf(full) == map["users" := 1] && RowCountsOf(emptied)["users"] == 0;
    var fs := new FileSystem(map[]);
    var db := new SiteDatabase(map[]);
    exported, moved := ExportThenImport(rt, fs, "out", s, db, "cernere", CALM_RESTORE);
  }

  /** JSON text holds the text of every member, and a character at least for every member. */
  ghost predicate PrintsEveryMember(rt: Runtime) {
    forall j: Json :: j.JObject? ==>
      |j.fields| <= |rt.stringify(j)| && forall k :: k in j.fields ==> |rt.stringify(j.fields[k])| <= |rt.stringify(j)|
  }

  /** The n-th of a million table names of two characters. */
  function TableName(n: nat): string
    requires n < 0x10_0000
  {
    [(' ' as nat + n / 1024) as char, (' ' as nat + n % 1024) as char]
  }

  lemma TableNameDigits(n: nat)
    requires n < 0x10_0000
    ensures n == 1024 * (TableName(n)[0] as nat - ' ' as nat) + (TableName(n)[1] as nat - ' ' as nat)
  {
  }

  lemma TableNamesDiffer(m: nat, n: nat)
    requires m < 0x10_0000 && n < 0x10_0000
    ensures TableName(m) == TableName(n) ==> m == n
  {
    TableNameDigits(m);
    TableNameDigits(n);
  }

  /** n tables without rows. */
  function ManyTables(n: nat): map<string, Rows>
    requires n <= 0x10_0000
  {
    if n == 0 then map[] else ManyTables(n - 1)[TableName(n - 1) := []]
  }

  lemma {:induction false} ManyTablesCount(n: nat)
    requires n <= 0x10_0000
    ensures |ManyTables(n)| == n
    ensures forall t :: t in ManyTables(n) ==> IsLabel(t) && exists i :: 0 <= i < n && t == TableName(i)
    ensures forall t :: t in ManyTables(n) ==> ManyTables(n)[t] == []
  {
    if n > 0 {
      ManyTablesCount(n - 1);
      if TableName(n - 1) in ManyTables(n - 1) {
        var i :| 0 <= i < n - 1 && TableName(n - 1) == TableName(i);
        TableNamesDiffer(i, n - 1);
      }
    }
  }

  lemma HeaderOfManyTables(rt: Runtime, header: Header)
    requires Sound(rt) && PrintsEveryMember(rt) && |header.tables| >= 0x10_0000
    ensures |Preamble(rt, header)| > MAX_PREAMBLE_BYTES
  {
    HeaderLookups(header);
    TablesReadBack(header.tables);
    assert |TablesJson(header.tables).fields| == |header.tables| by {
      assert |TablesJson(header.tables).fields.Keys| == |header.tables.Keys|;
    }
    assert |rt.stringify(TablesJson(header.tables))| <= |rt.stringify(HeaderJson(header))|;
  }

  lemma EmptyTablesExport(rt: Runtime, contents: Contents)
    requires Sound(rt) && |rt.dump(contents)| <= MAX_SAFE_INTEGER
    requires forall t :: t in contents.tables ==> IsLabel(t) && contents.tables[t] == []
    ensures
      var s := CalmExport(contents, contents, contents);
      Undisturbed(rt, s) && |ExportedHeader(rt, s).value.tables| == |contents.tables|
  {
    var counts := RowCountsOf(contents);
    assert IsRowCounts(counts);
    assert |counts.Keys| == |contents.tables.Keys| by { assert counts.Keys == contents.tables.Keys; }
    assert IsLabel("17") && IsLabel("cernere");
  }

  /** A database of a million tables is exported to a bundle that its own import does not recognise. */
  method TooManyTables(rt: Runtime) returns (exported: bool, moved: bool)
    requires Sound(rt) && PrintsEveryMember(rt) && |rt.dump(Contents(ManyTables(0x10_0000)))| <= MAX_SAFE_INTEGER
    ensures exported && !moved
  {
    var contents := Contents(ManyTables(0x10_0000));
    var s := CalmExport(contents, contents, contents);
    ManyTablesCount(0x10_0000);
    EmptyTablesExport(rt, contents);
    HeaderOfManyTables(rt, ExportedHeader(rt, s).value);
    var fs := new FileSystem(map[]);
    var db := new SiteDatabase(map[]);
    exported, moved := ExportThenImport(rt, fs, "out", s, db, "cernere", CALM_RESTORE);
  }
}
