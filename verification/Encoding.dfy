/**
 The manifest as a JSON tree: `omitempty` drops zero values and empty snapshots,
 a nil list becomes null and an empty one an empty array. Saving and loading
 therefore forgets exactly whether a snapshot was nil or empty.
 */
module Encoding {
  import opened Wrappers
  import opened Manifests

  datatype Json =
    | JNull
    | JBool(b: bool)
    | JNum(n: int)
    | JStr(s: string)
    | JArr(items: seq<Json>)
    | JObj(fields: seq<(string, Json)>)

  // ---- encoding ----

  function Optional(name: string, present: bool, j: Json): seq<(string, Json)> {
    if present then [(name, j)] else []
  }

  function EncodeFile(f: ManifestFile): Json {
    JObj([("path", JStr(f.path)), ("sha256", JStr(f.sha256))]
         + Optional("mode", f.mode != "", JStr(f.mode))
         + Optional("size", f.size != 0, JNum(f.size))
         + Optional("mtime", f.mtime != 0, JNum(f.mtime)))
  }

  function EncodePackage(p: ManifestPackage): Json {
    JObj([("name", JStr(p.name))] + Optional("version", p.version != "", JStr(p.version)))
  }

  function EncodeService(s: ManifestService): Json {
    JObj([("name", JStr(s.name)), ("running", JBool(s.running)), ("enabled", JBool(s.enabled))])
  }

  function EncodeName(n: string): Json {
    JStr(n)
  }

  function EncodeSlice<T>(l: Slice<T>, enc: T -> Json): Json {
    match l
    case Nil => JNull
    case Of(items) => JArr(seq(|items|, i requires 0 <= i < |items| => enc(items[i])))
  }

  function Encode(m: Manifest): Json {
    JObj([("schema_version", JNum(m.schemaVersion)),
          ("generated_at", JNum(m.generatedAt)),
          ("files", EncodeSlice(m.files, EncodeFile)),
          ("packages", EncodeSlice(m.packages, EncodePackage)),
          ("services", EncodeSlice(m.services, EncodeService))]
         + Optional("package_snapshot", m.packageSnapshot.Items() != [], EncodeSlice(m.packageSnapshot, EncodeName))
         + Optional("service_snapshot", m.serviceSnapshot.Items() != [], EncodeSlice(m.serviceSnapshot, EncodeName)))
  }

  // ---- decoding ----

  /** A field that is absent decodes like null. */
  function Get(fields: seq<(string, Json)>, name: string): Json {
    if fields == [] then JNull
    else if fields[|fields| - 1].0 == name then fields[|fields| - 1].1
    else Get(fields[..|fields| - 1], name)
  }

  /** Null leaves a field at its zero value; a value of another type is an error. */
  function AsStr(j: Json): Option<string> {
    match j
    case JStr(s) => Some(s)
    case JNull => Some("")
    case _ => None
  }

  function AsInt(j: Json): Option<int> {
    match j
    case JNum(n) => Some(n)
    case JNull => Some(0)
    case _ => None
  }

  function AsBool(j: Json): Option<bool> {
    match j
    case JBool(b) => Some(b)
    case JNull => Some(false)
    case _ => None
  }

  function AsFields(j: Json): Option<seq<(string, Json)>> {
    match j
    case JObj(fields) => Some(fields)
    case JNull => Some([])
    case _ => None
  }

  function DecodeFile(j: Json): Option<ManifestFile> {
    match AsFields(j)
    case None => None
    case Some(o) =>
      match (AsStr(Get(o, "path")), AsStr(Get(o, "sha256")), AsStr(Get(o, "mode")), AsInt(Get(o, "size")),
             AsInt(Get(o, "mtime")))
      case (Some(path), Some(sha256), Some(mode), Some(size), Some(mtime)) =>
        Some(ManifestFile(path, sha256, mode, size, mtime))
      case _ => None
  }

  function DecodePackage(j: Json): Option<ManifestPackage> {
    match AsFields(j)
    case None => None
    case Some(o) =>
      match (AsStr(Get(o, "name")), AsStr(Get(o, "version")))
      case (Some(name), Some(version)) => Some(ManifestPackage(name, version))
      case _ => None
  }

  function DecodeService(j: Json): Option<ManifestService> {
    match AsFields(j)
    case None => None
    case Some(o) =>
      match (AsStr(Get(o, "name")), AsBool(Get(o, "running")), AsBool(Get(o, "enabled")))
      case (Some(name), Some(running), Some(enabled)) => Some(ManifestService(name, running, enabled))
      case _ => None
  }

  function DecodeItems<T>(items: seq<Json>, dec: Json -> Option<T>): Option<seq<T>> {
    if items == [] then Some([])
    else match (dec(items[0]), DecodeItems(items[1..], dec))
      case (Some(t), Some(rest)) => Some([t] + rest)
      case _ => None
  }

  function DecodeSlice<T>(j: Json, dec: Json -> Option<T>): Option<Slice<T>> {
    match j
    case JNull => Some(Nil)
    case JArr(items) =>
      (match DecodeItems(items, dec)
       case Some(l) => Some(Of(l))
       case None => None)
    case _ => None
  }

  function Decode(j: Json): Option<Manifest> {
    match AsFields(j)
    case None => None
    case Some(o) =>
      match (AsInt(Get(o, "schema_version")), AsInt(Get(o, "generated_at")),
             DecodeSlice(Get(o, "files"), DecodeFile), DecodeSlice(Get(o, "packages"), DecodePackage),
             DecodeSlice(Get(o, "services"), DecodeService),
             DecodeSlice(Get(o, "package_snapshot"), AsStr), DecodeSlice(Get(o, "service_snapshot"), AsStr))
      case (Some(schema), Some(at), Some(files), Some(packages), Some(services), Some(ps), Some(ss)) =>
        Some(Manifest(schema, at, files, packages, services, ps, ss))
      case _ => None
  }

  /** Only schema 1 is accepted. */
  function Load(j: Json): Option<Manifest> {
    match Decode(j)
    case Some(m) => if m.schemaVersion == 1 then Some(m) else None
    case None => None
  }

  // ---- round trip ----

  /** What saving and loading makes of a manifest. */
  function Normal(m: Manifest): Manifest {
    m.(packageSnapshot := NilIfEmpty(m.packageSnapshot), serviceSnapshot := NilIfEmpty(m.serviceSnapshot))
  }

  function NilIfEmpty(l: Slice<string>): Slice<string> {
    if l.Items() == [] then Nil else l
  }

  lemma GetLast(fields: seq<(string, Json)>, name: string, j: Json, other: string)
    ensures Get(fields + [(name, j)], other) == if name == other then j else Get(fields, other)
  {
    assert (fields + [(name, j)])[..|fields|] == fields;
  }

  lemma GetOptional(fields: seq<(string, Json)>, name: string, present: bool, j: Json, other: string)
    ensures Get(fields + Optional(name, present, j), other)
         == if present && name == other then j else Get(fields, other)
  {
    if present {
      GetLast(fields, name, j, other);
    } else {
      assert fields + [] == fields;
    }
  }

  /** The fixed head of an object, read field by field. */
  lemma {:induction false} GetHead(fields: seq<(string, Json)>, k: nat)
    requires k < |fields| && forall i, j :: 0 <= i < j < |fields| ==> fields[i].0 != fields[j].0
    ensures Get(fields, fields[k].0) == fields[k].1
    decreases |fields|
  {
    if k < |fields| - 1 {
      GetHead(fields[..|fields| - 1], k);
    }
  }

  lemma {:induction false} GetAbsent(fields: seq<(string, Json)>, name: string)
    requires forall i :: 0 <= i < |fields| ==> fields[i].0 != name
    ensures Get(fields, name) == JNull
    decreases |fields|
  {
    if fields != [] {
      GetAbsent(fields[..|fields| - 1], name);
    }
  }

  lemma FileRoundTrip(f: ManifestFile)
    ensures DecodeFile(EncodeFile(f)) == Some(f)
  {
    var head := [("path", JStr(f.path)), ("sha256", JStr(f.sha256))];
    KeysDiffer();
    GetHead(head, 0);
    GetHead(head, 1);
    GetAbsent(head, "mode");
    GetAbsent(head, "size");
    GetAbsent(head, "mtime");
    FileField(f, head, "path");
    FileField(f, head, "sha256");
    FileField(f, head, "mode");
    FileField(f, head, "size");
    FileField(f, head, "mtime");
  }

  /** Three optional fields behind a head that has none of them. */
  lemma FileField(f: ManifestFile, head: seq<(string, Json)>, key: string)
    requires head == [("path", JStr(f.path)), ("sha256", JStr(f.sha256))]
    ensures Get(AsFields(EncodeFile(f)).value, key)
         == if f.mtime != 0 && "mtime" == key then JNum(f.mtime)
            else if f.size != 0 && "size" == key then JNum(f.size)
            else if f.mode != "" && "mode" == key then JStr(f.mode)
            else Get(head, key)
  {
    var one := head + Optional("mode", f.mode != "", JStr(f.mode));
    var two := one + Optional("size", f.size != 0, JNum(f.size));
    GetOptional(head, "mode", f.mode != "", JStr(f.mode), key);
    GetOptional(one, "size", f.size != 0, JNum(f.size), key);
    GetOptional(two, "mtime", f.mtime != 0, JNum(f.mtime), key);
  }

  lemma KeysDiffer()
    ensures |"path"| == 4 && |"sha256"| == 6 && |"mode"| == 4 && |"size"| == 4 && |"mtime"| == 5
    ensures "path"[0] == 'p' && "mode"[0] == 'm' && "size"[0] == 's'
    ensures |"name"| == 4 && |"version"| == 7 && |"running"| == 7 && |"enabled"| == 7
    ensures "version"[0] == 'v' && "running"[0] == 'r' && "enabled"[0] == 'e'
  {
  }

  lemma PackageRoundTrip(p: ManifestPackage)
    ensures DecodePackage(EncodePackage(p)) == Some(p)
  {
    var head := [("name", JStr(p.name))];
    KeysDiffer();
    GetHead(head, 0);
    GetAbsent(head, "version");
    GetOptional(head, "version", p.version != "", JStr(p.version), "name");
    GetOptional(head, "version", p.version != "", JStr(p.version), "version");
  }

  lemma ServiceRoundTrip(s: ManifestService)
    ensures DecodeService(EncodeService(s)) == Some(s)
  {
    var head := [("name", JStr(s.name)), ("running", JBool(s.running)), ("enabled", JBool(s.enabled))];
    KeysDiffer();
    GetHead(head, 0);
    GetHead(head, 1);
    GetHead(head, 2);
  }

  lemma {:induction false} ItemsRoundTrip<T>(l: seq<T>, enc: T -> Json, dec: Json -> Option<T>)
    requires forall t :: t in l ==> dec(enc(t)) == Some(t)
    ensures DecodeItems(seq(|l|, i requires 0 <= i < |l| => enc(l[i])), dec) == Some(l)
  {
    if l != [] {
      var js, rest := seq(|l|, i requires 0 <= i < |l| => enc(l[i])), l[1..];
      ItemsRoundTrip(rest, enc, dec);
      assert js[1..] == seq(|rest|, i requires 0 <= i < |rest| => enc(rest[i]));
      assert l == [l[0]] + rest && l[0] in l;
    }
  }

  lemma SliceRoundTrip<T>(l: Slice<T>, enc: T -> Json, dec: Json -> Option<T>)
    requires forall t :: t in l.Items() ==> dec(enc(t)) == Some(t)
    ensures DecodeSlice(EncodeSlice(l, enc), dec) == Some(l)
  {
    if l.Of? {
      ItemsRoundTrip(l.elems, enc, dec);
    }
  }

  lemma HeadKeysDiffer()
    ensures |"schema_version"| == 14 && |"generated_at"| == 12 && |"files"| == 5
    ensures |"packages"| == 8 && |"services"| == 8 && "packages"[0] == 'p' && "services"[0] == 's'
    ensures |"package_snapshot"| == 16 && |"service_snapshot"| == 16
    ensures "package_snapshot"[0] == 'p' && "service_snapshot"[0] == 's'
  {
  }

  function Head(m: Manifest): seq<(string, Json)> {
    [("schema_version", JNum(m.schemaVersion)),
     ("generated_at", JNum(m.generatedAt)),
     ("files", EncodeSlice(m.files, EncodeFile)),
     ("packages", EncodeSlice(m.packages, EncodePackage)),
     ("services", EncodeSlice(m.services, EncodeService))]
  }

  lemma HeadFields(m: Manifest)
    ensures var h := Head(m);
            && Get(h, "schema_version") == h[0].1 && Get(h, "generated_at") == h[1].1 && Get(h, "files") == h[2].1
            && Get(h, "packages") == h[3].1 && Get(h, "services") == h[4].1
            && Get(h, "package_snapshot") == JNull && Get(h, "service_snapshot") == JNull
  {
    HeadKeysDiffer();
    var h := Head(m);
    GetHead(h, 0);
    GetHead(h, 1);
    GetHead(h, 2);
    GetHead(h, 3);
    GetHead(h, 4);
    GetAbsent(h, "package_snapshot");
    GetAbsent(h, "service_snapshot");
  }

  lemma EncodedFields(m: Manifest, key: string)
    ensures Get(AsFields(Encode(m)).value, key)
         == if m.serviceSnapshot.Items() != [] && key == "service_snapshot" then
              EncodeSlice(m.serviceSnapshot, EncodeName)
            else if m.packageSnapshot.Items() != [] && key == "package_snapshot" then
              EncodeSlice(m.packageSnapshot, EncodeName)
            else Get(Head(m), key)
  {
    var ps, ss := EncodeSlice(m.packageSnapshot, EncodeName), EncodeSlice(m.serviceSnapshot, EncodeName);
    var one := Head(m) + Optional("package_snapshot", m.packageSnapshot.Items() != [], ps);
    GetOptional(Head(m), "package_snapshot", m.packageSnapshot.Items() != [], ps, key);
    GetOptional(one, "service_snapshot", m.serviceSnapshot.Items() != [], ss, key);
  }

  /** Every field of an encoded manifest, as the decoder reads it. */
  lemma FieldsRead(m: Manifest)
    ensures var o := AsFields(Encode(m)).value;
            && Get(o, "schema_version") == JNum(m.schemaVersion) && Get(o, "generated_at") == JNum(m.generatedAt)
            && Get(o, "files") == EncodeSlice(m.files, EncodeFile)
            && Get(o, "packages") == EncodeSlice(m.packages, EncodePackage)
            && Get(o, "services") == EncodeSlice(m.services, EncodeService)
            && Get(o, "package_snapshot") == EncodeSlice(NilIfEmpty(m.packageSnapshot), EncodeName)
            && Get(o, "service_snapshot") == EncodeSlice(NilIfEmpty(m.serviceSnapshot), EncodeName)
  {
    HeadKeysDiffer();
    HeadFields(m);
    EncodedFields(m, "schema_version");
    EncodedFields(m, "generated_at");
    EncodedFields(m, "files");
    EncodedFields(m, "packages");
    EncodedFields(m, "services");
    EncodedFields(m, "package_snapshot");
    EncodedFields(m, "service_snapshot");
  }

  /** Loading what was saved gives the manifest back, with empty snapshots as nil. */
  lemma SaveLoad(m: Manifest)
    ensures Decode(Encode(m)) == Some(Normal(m))
    ensures Load(Encode(m)) == if m.schemaVersion == 1 then Some(Normal(m)) else None
  {
    FieldsRead(m);
    SlicesRoundTrip(Normal(m));
  }

  lemma SlicesRoundTrip(m: Manifest)
    ensures DecodeSlice(EncodeSlice(m.files, EncodeFile), DecodeFile) == Some(m.files)
    ensures DecodeSlice(EncodeSlice(m.packages, EncodePackage), DecodePackage) == Some(m.packages)
    ensures DecodeSlice(EncodeSlice(m.services, EncodeService), DecodeService) == Some(m.services)
    ensures DecodeSlice(EncodeSlice(m.packageSnapshot, EncodeName), AsStr) == Some(m.packageSnapshot)
    ensures DecodeSlice(EncodeSlice(m.serviceSnapshot, EncodeName), AsStr) == Some(m.serviceSnapshot)
  {
    forall f { FileRoundTrip(f); }
    forall p { PackageRoundTrip(p); }
    forall s { ServiceRoundTrip(s); }
    SliceRoundTrip(m.files, EncodeFile, DecodeFile);
    SliceRoundTrip(m.packages, EncodePackage, DecodePackage);
    SliceRoundTrip(m.services, EncodeService, DecodeService);
    SliceRoundTrip(m.packageSnapshot, EncodeName, AsStr);
    SliceRoundTrip(m.serviceSnapshot, EncodeName, AsStr);
  }

  // ---- comparing manifests ----

  function Undated(m: Manifest): Manifest {
    m.(generatedAt := 0)
  }

  /** Equal encodings apart from the time. */
  predicate ManifestsEqual(a: Manifest, b: Manifest) {
    Encode(Undated(a)) == Encode(Undated(b))
  }

  lemma EncodeNormal(m: Manifest)
    ensures Encode(Normal(m)) == Encode(m)
  {
  }

  /** The comparison sees everything but the time and nil against empty snapshots. */
  lemma ManifestsEqualIff(a: Manifest, b: Manifest)
    ensures ManifestsEqual(a, b) <==> Undated(Normal(a)) == Undated(Normal(b))
  {
    SaveLoad(Undated(a));
    SaveLoad(Undated(b));
    EncodeNormal(Undated(a));
    EncodeNormal(Undated(b));
    assert Normal(Undated(a)) == Undated(Normal(a)) && Normal(Undated(b)) == Undated(Normal(b));
  }

  /** Regenerating what is on disk compares equal, whenever it is done. */
  lemma SavedComparesEqual(m: Manifest, now: int)
    requires m.schemaVersion == 1
    ensures Load(Encode(m)).Some? && ManifestsEqual(Load(Encode(m)).value, m.(generatedAt := now))
  {
    SaveLoad(m);
    ManifestsEqualIff(Normal(m), m.(generatedAt := now));
    assert Normal(Normal(m)) == Normal(m);
  }

  /** For the declared lists nil and empty do differ: no files from the CLI is not no files from a recording. */
  lemma NilIsNotEmpty(m: Manifest)
    requires m.files.Items() == []
    ensures !ManifestsEqual(m.(files := Nil), m.(files := Of([])))
  {
    ManifestsEqualIff(m.(files := Nil), m.(files := Of([])));
    assert Undated(Normal(m.(files := Nil))).files == Nil;
  }

  // ---- what does not load ----

  /** A value of another type under a known field, or no object at all, is not loaded. */
  lemma MistypedIsRejected(j: Json)
    requires Load(j).Some?
    ensures j.JObj?
    ensures forall name ::
              name in {"schema_version", "generated_at"} ==> Get(j.fields, name).JNum? || Get(j.fields, name).JNull?
    ensures forall name ::
              name in {"files", "packages", "services", "package_snapshot", "service_snapshot"} ==>
                Get(j.fields, name).JArr? || Get(j.fields, name).JNull?
  {
    assert Get([], "schema_version") == JNull;
  }

  lemma {:induction false} ItemsAllDecode<T>(items: seq<Json>, dec: Json -> Option<T>)
    ensures DecodeItems(items, dec).Some? <==> forall j :: j in items ==> dec(j).Some?
  {
    if items != [] {
      ItemsAllDecode(items[1..], dec);
      assert forall j :: j in items <==> j == items[0] || j in items[1..];
    }
  }

  /** Nor is a list with an entry that is no object, or a snapshot with one that is no text. */
  lemma MistypedEntryIsRejected(j: Json, name: string, entry: Json)
    requires Load(j).Some? && j.JObj? && Get(j.fields, name).JArr? && entry in Get(j.fields, name).items
    ensures name in {"files", "packages", "services"} ==> entry.JObj? || entry.JNull?
    ensures name in {"package_snapshot", "service_snapshot"} ==> entry.JStr? || entry.JNull?
  {
    var items := Get(j.fields, name).items;
    ItemsAllDecode(items, DecodeFile);
    ItemsAllDecode(items, DecodePackage);
    ItemsAllDecode(items, DecodeService);
    ItemsAllDecode(items, AsStr);
  }

  /** Nor an entry with a field of another type. */
  lemma EntryFieldsAreTyped(o: seq<(string, Json)>, key: string)
    ensures DecodeFile(JObj(o)).Some? ==>
              && (key in {"path", "sha256", "mode"} ==> Get(o, key).JStr? || Get(o, key).JNull?)
              && (key in {"size", "mtime"} ==> Get(o, key).JNum? || Get(o, key).JNull?)
    ensures DecodePackage(JObj(o)).Some? ==> (key in {"name", "version"} ==> Get(o, key).JStr? || Get(o, key).JNull?)
    ensures DecodeService(JObj(o)).Some? ==>
              && (key == "name" ==> Get(o, key).JStr? || Get(o, key).JNull?)
              && (key in {"running", "enabled"} ==> Get(o, key).JBool? || Get(o, key).JNull?)
  {
  }
}
