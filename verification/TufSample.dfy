/** Sample files: canonical JSON documents that are read field by field, and signed with one key. */
module TufSample {
  import opened Prelude
  import opened CanonicalJson
  import opened CanonicalReader
  import opened TufMetadata
  import opened TufTrusted
  import opened TufHistory

  const EXPIRES := "2030-01-01T00:00:00Z"
  const SIGNATURE := Signature("6f", "00")
  const ONE_KEY := RoleKeys(["6f"], 1)
  const ROOT := Root(1, EXPIRES, false, map["6f" := Key("ed25519", "ed25519", "00")],
                     map["root" := ONE_KEY, "timestamp" := ONE_KEY, "snapshot" := ONE_KEY])

  // ----- The documents

  const NO_PIN := Object(map[])

  function Pin(version: Version, sha256: Option<string>): Json {
    match sha256
    case None => Object(map[Ascii("version") := Number(Integer(version))])
    case Some(hash) =>
      Object(map[Ascii("version") := Number(Integer(version)),
                 Ascii("hashes") := Object(map[Ascii("sha256") := String(Ascii(hash))])])
  }

  function PinOf(version: Version, sha256: Option<string>): Json {
    Object(map[Ascii("snapshot.json") := Pin(version, sha256)])
  }

  function TargetsPin(version: Version): Json {
    Object(map[Ascii("targets.json") := Pin(version, None)])
  }

  function Payload(kind: string, version: Version, meta: Json): Json {
    Object(map[Ascii("_type") := String(Ascii(kind)), Ascii("spec_version") := String(Ascii("1.0")),
               Ascii("version") := Number(Integer(version)), Ascii("meta") := meta])
  }

  function Document(payload: Json): Json {
    Object(map[Ascii("signed") := payload, Ascii("signatures") := Array([])])
  }

  ghost function TextOf(payload: Json): Bytes {
    if Encodable(Document(payload)) then Canonical(Document(payload)) else []
  }

  // ----- How they are read

  function IntField(v: Json, name: string): Option<Version> {
    match Field(v, name)
    case Some(Number(Integer(i))) => if i >= 0 then Some(i) else None
    case _ => None
  }

  function Text(b: Bytes): string {
    seq(|b|, i requires 0 <= i < |b| => b[i] as int as char)
  }

  function HashesIn(pin: Json): Option<map<string, string>> {
    match Field(pin, "hashes")
    case None => None
    case Some(hashes) =>
      match Field(hashes, "sha256")
      case Some(String(b)) => Some(map["sha256" := Text(b)])
      case _ => None
  }

  function PinIn(meta: Json, name: string): map<string, MetaFile> {
    match Field(meta, name)
    case None => map[]
    case Some(pin) =>
      match IntField(pin, "version")
      case None => map[]
      case Some(n) => map[name := MetaFile(n, None, HashesIn(pin))]
  }

  function MetaIn(v: Json): map<string, MetaFile> {
    match Field(v, "meta")
    case None => map[]
    case Some(meta) => PinIn(meta, "snapshot.json") + PinIn(meta, "targets.json")
  }

  function TimestampOf(v: Json): Option<Timestamp> {
    match IntField(v, "version")
    case None => None
    case Some(n) => Some(Timestamp(n, EXPIRES, MetaIn(v)))
  }

  function SnapshotOf(v: Json): Option<Snapshot> {
    match IntField(v, "version")
    case None => None
    case Some(n) => Some(Snapshot(n, EXPIRES, MetaIn(v)))
  }

  /** One key signs everything, with the hexadecimal text "00"; the hash sets one file apart from all others. */
  ghost function World(marked: Bytes): Env {
    Env(Read, _ => Some([SIGNATURE]), _ => Some(ROOT), TimestampOf, SnapshotOf, _ => None,
        (_, _, sig) => sig == "00", text => if text == EXPIRES then Some(1893456000) else None,
        bytes => if bytes == marked then "bb" else "aa", _ => "", _ => "", (_, _) => None)
  }

  // ----- What is read is what was written

  lemma {:induction false} NamesDiffer()
    ensures |Ascii("_type")| == 5 && |Ascii("spec_version")| == 12 && |Ascii("version")| == 7 && |Ascii("meta")| == 4
    ensures |Ascii("signed")| == 6 && |Ascii("signatures")| == 10 && |Ascii("hashes")| == 6
    ensures |Ascii("snapshot.json")| == 13 && |Ascii("targets.json")| == 12
    ensures MajorVersionOne(Ascii("1.0"))
  {
    assert Ascii("1.0")[..2] == Ascii("1.");
  }

  lemma {:induction false} PayloadFields(kind: string, version: Version, meta: Json)
    ensures var p := Payload(kind, version, meta);
            && Field(p, "_type") == Some(String(Ascii(kind))) && Field(p, "spec_version") == Some(String(Ascii("1.0")))
            && Field(p, "version") == Some(Number(Integer(version))) && Field(p, "meta") == Some(meta)
    ensures Encodable(meta) ==> Encodable(Document(Payload(kind, version, meta)))
  {
    hide Ascii;
    NamesDiffer();
    var p := Payload(kind, version, meta);
    if Encodable(meta) {
      forall k | k in p.members ensures Encodable(p.members[k]) {
      }
      assert Encodable(p);
      var d := Document(p);
      forall k | k in d.members ensures Encodable(d.members[k]) {
        assert Encodable(Array([]));
      }
    }
  }

  lemma {:induction false} TextOfAscii(s: string)
    requires forall i :: 0 <= i < |s| ==> s[i] as int < 256
    ensures Text(Ascii(s)) == s
  {
  }

  lemma {:induction false} PinRead(version: Version, sha256: Option<string>)
    requires sha256.Some? ==> forall i :: 0 <= i < |sha256.value| ==> sha256.value[i] as int < 256
    ensures var p := Pin(version, sha256);
            && IntField(p, "version") == Some(version) && Encodable(p)
            && HashesIn(p) == if sha256.Some? then Some(map["sha256" := sha256.value]) else None
  {
    hide Ascii, Text;
    NamesDiffer();
    if sha256.Some? {
      TextOfAscii(sha256.value);
      var hashes := Object(map[Ascii("sha256") := String(Ascii(sha256.value))]);
      assert Encodable(String(Ascii(sha256.value)));
      assert Encodable(hashes);
      var p := Pin(version, sha256);
      forall k | k in p.members ensures Encodable(p.members[k]) {
      }
    }
  }

  lemma {:induction false} PinsRead(version: Version, pinned: Version, sha256: Option<string>)
    requires sha256.Some? ==> forall i :: 0 <= i < |sha256.value| ==> sha256.value[i] as int < 256
    ensures var hashes := if sha256.Some? then Some(map["sha256" := sha256.value]) else None;
            MetaIn(Payload("timestamp", version, PinOf(pinned, sha256))) ==
            map["snapshot.json" := MetaFile(pinned, None, hashes)]
    ensures Encodable(PinOf(pinned, sha256))
  {
    hide Ascii, Pin, HashesIn, IntField;
    NamesDiffer();
    PinRead(pinned, sha256);
    PayloadFields("timestamp", version, PinOf(pinned, sha256));
  }

  lemma {:induction false} TargetsPinRead(version: Version, pinned: Version)
    ensures MetaIn(Payload("snapshot", version, TargetsPin(pinned))) ==
            map["targets.json" := MetaFile(pinned, None, None)]
    ensures Encodable(TargetsPin(pinned))
  {
    hide Ascii, Pin, HashesIn, IntField;
    NamesDiffer();
    PinRead(pinned, None);
    PayloadFields("snapshot", version, TargetsPin(pinned));
  }

  lemma {:induction false} NoPinsRead(kind: string, version: Version)
    ensures MetaIn(Payload(kind, version, NO_PIN)) == map[] && Encodable(NO_PIN)
  {
    hide Ascii;
    PayloadFields(kind, version, NO_PIN);
  }

  lemma {:induction false} EncodableField(v: Json, key: Bytes)
    requires v.Object? && Encodable(v) && key in v.members
    ensures Encodable(v.members[key])
  {
  }

  lemma {:induction false} DocumentFields(p: Json)
    requires Encodable(Document(p))
    ensures Field(Document(p), "signed") == Some(p) && Field(Document(p), "signatures") == Some(Array([]))
    ensures Encodable(p)
  {
    hide Ascii;
    NamesDiffer();
    EncodableField(Document(p), Ascii("signed"));
  }

  lemma {:induction false} PayloadHeader(kind: string, version: Version, meta: Json)
    ensures AcceptableHeader(Payload(kind, version, meta), kind)
  {
    hide Ascii, MajorVersionOne, Payload;
    PayloadFields(kind, version, meta);
    NamesDiffer();
  }

  lemma {:induction false} DocumentParses<T>(marked: Bytes, kind: string, decode: Json -> Option<T>,
        version: Version, meta: Json)
    requires Encodable(meta) && decode(Payload(kind, version, meta)).Some?
    ensures var r := Parsed(World(marked), kind, decode, TextOf(Payload(kind, version, meta)));
            r.Success? && r.value.signatures == [SIGNATURE] &&
            r.value.signed == decode(Payload(kind, version, meta)).value
  {
    hide Canonical, Read, Field, AcceptableHeader, Payload, Document;
    var p := Payload(kind, version, meta);
    PayloadFields(kind, version, meta);
    PayloadHeader(kind, version, meta);
    ReadIffCanonical(TextOf(p), Document(p));
    DocumentFields(p);
  }

  lemma {:induction false} OneSignatureSuffices<T>(marked: Bytes, m: Metadata<T>, role: string)
    requires m.signatures == [SIGNATURE] && role in ROOT.roles
    ensures SignedBy(World(marked), m, ROOT, role)
  {
    var signers := ValidSigners(World(marked), ROOT.keys, m.canonicalSigned, m.signatures, 1, ONE_KEY.keyids);
    assert m.signatures[0].keyid in signers;
    assert signers == {"6f"};
    ThresholdMeaning(World(marked), m.signatures, m.canonicalSigned, ROOT.keys, ONE_KEY, role);
  }

  lemma {:induction false} RootDocument(marked: Bytes) returns (root: Metadata<Root>)
    ensures Parsed(World(marked), "root", World(marked).asRoot, TextOf(Payload("root", 1, NO_PIN))) == Success(root)
    ensures root.signed == ROOT && SignedBy(World(marked), root, ROOT, "root")
  {
    hide Canonical, ThresholdResult, Ascii;
    DocumentParses(marked, "root", World(marked).asRoot, 1, NO_PIN);
    root := Parsed(World(marked), "root", World(marked).asRoot, TextOf(Payload("root", 1, NO_PIN))).value;
    OneSignatureSuffices(marked, root, "root");
  }

  lemma {:induction false} TimestampDocument(marked: Bytes, version: Version, meta: Json)
      returns (ts: Metadata<Timestamp>)
    requires Encodable(meta)
    ensures GoodTimestamp(World(marked), ROOT, TextOf(Payload("timestamp", version, meta)), ts, 0)
    ensures ts.signed == Timestamp(version, EXPIRES, MetaIn(Payload("timestamp", version, meta)))
  {
    hide Canonical, ThresholdResult, Ascii, MetaIn;
    PayloadFields("timestamp", version, meta);
    DocumentParses(marked, "timestamp", World(marked).asTimestamp, version, meta);
    var file := TextOf(Payload("timestamp", version, meta));
    ts := Parsed(World(marked), "timestamp", World(marked).asTimestamp, file).value;
    OneSignatureSuffices(marked, ts, "timestamp");
  }

  lemma {:induction false} SnapshotDocument(marked: Bytes, version: Version, meta: Json, pin: MetaFile)
      returns (snap: Metadata<Snapshot>)
    requires Encodable(meta) && pin.version == version
    ensures GoodSnapshot(World(marked), ROOT, TextOf(Payload("snapshot", version, meta)), snap, pin, 0)
    ensures snap.signed == Snapshot(version, EXPIRES, MetaIn(Payload("snapshot", version, meta)))
  {
    hide Canonical, ThresholdResult, Ascii, MetaIn;
    PayloadFields("snapshot", version, meta);
    DocumentParses(marked, "snapshot", World(marked).asSnapshot, version, meta);
    var file := TextOf(Payload("snapshot", version, meta));
    snap := Parsed(World(marked), "snapshot", World(marked).asSnapshot, file).value;
    OneSignatureSuffices(marked, snap, "snapshot");
  }

  /** Different payloads, different files. */
  lemma {:induction false} TextsDiffer(p: Json, q: Json)
    requires Encodable(Document(p)) && Encodable(Document(q)) && p != q
    ensures TextOf(p) != TextOf(q)
  {
    hide Ascii, Canonical;
    NamesDiffer();
    assert Field(Document(p), "signed") == Some(p) && Field(Document(q), "signed") == Some(q);
    if TextOf(p) == TextOf(q) { CanonicalInjective(Document(p), Document(q)); }
  }

  lemma {:induction false} HashTells(marked: Bytes, file: Bytes, version: Version, hash: string)
    requires hash == "aa" || hash == "bb"
    ensures Integrity(World(marked), file, MetaFile(version, None, Some(map["sha256" := hash]))).Success? <==>
            (file == marked <==> hash == "bb")
  {
    var env, pins := World(marked), map["sha256" := hash];
    assert "sha256" in pins && Supported("sha256");
    var actual := env.sha256Hex(file);
    assert EqIgnoreAsciiCase("aa", "aa") && EqIgnoreAsciiCase("bb", "bb");
    assert "aa"[0] != "bb"[0] && Lower("aa"[0]) != Lower("bb"[0]);
    assert HashMatches(env, "sha256", hash, file) <==> actual == hash;
  }
}
