/** Export files and their import into an engine that may hold other namespaces. */
module ExportImport {
  import opened Text
  import opened Commands
  import opened Replay
  import opened Engine
  import Bundle

  datatype Header = Header(namespace: Bytes, formatVersion: nat, createdAt: nat, keyCount: nat)

  /** JSON, postcard and AES-GCM, of which only the round trips matter here. */
  datatype Codecs = Codecs(
    printHeader: Header -> Bytes, parseHeader: Bytes -> Option<Header>,
    printConfig: Json -> Bytes, parseConfig: Bytes -> Option<Json>,
    encode: seq<ExportEntry> -> Bytes, decode: Bytes -> Option<seq<ExportEntry>>,
    seal: (Bytes, Bytes) -> Bytes, unseal: (Bytes, Bytes) -> Option<Bytes>,
    defaultConfig: Json)

  function HeaderOf(name: Bytes, ns: NamespaceState, order: seq<Bytes>): Header {
    Header(name, 1, ns.createdAt, |order|)
  }

  /** The file that export writes. */
  function ExportFile(name: Bytes, ns: NamespaceState, order: seq<Bytes>, c: Codecs): Bytes
    requires Lists(order, ns.keys)
  {
    var header := c.printHeader(HeaderOf(name, ns, order));
    Bundle.Packed(header, c.seal(c.encode(Exported(ns.keys, order)), header), c.printConfig(ns.config))
  }

  datatype ImportResult = Unusable | NameTaken | Imported(namespaces: Namespaces)

  /** The namespace an import is to create. */
  function Incoming(name: Bytes, createdAt: nat, config: Option<Json>, entries: seq<ExportEntry>, c: Codecs): Snapshot {
    Snapshot(name, if config.Some? then config.value else c.defaultConfig, createdAt, entries)
  }

  /** What import does to the engine: it creates the namespace and writes its records one by one. */
  function ImportFile(engine: Namespaces, file: Bytes, rename: Option<Bytes>, stamp: nat, c: Codecs): ImportResult {
    match Bundle.Unpack(file, c.parseHeader, c.parseConfig)
    case Sections(headerJson, header, encrypted, config) =>
      var name := if rename.Some? then rename.value else header.namespace;
      if name in engine then NameTaken
      else
        (match c.unseal(encrypted, headerJson)
         case None => Unusable
         case Some(payload) =>
           match c.decode(payload)
           case None => Unusable
           case Some(entries) =>
             var s := Incoming(name, header.createdAt, config, entries, c);
             Imported(WrittenEntries(Created(engine, s), name, entries, stamp)))
    case _ => Unusable
  }

  /** `run_import`: scan, name test, decryption, decoding, and the replay loops; says what came of it. */
  method Import(engine: StorageEngine, file: Bytes, rename: Option<Bytes>, stamp: nat, c: Codecs) returns (ok: bool)
    modifies engine
    ensures var spec := ImportFile(old(engine.namespaces), file, rename, stamp, c);
            && ok == spec.Imported?
            && engine.namespaces == if ok then spec.namespaces else old(engine.namespaces)
  {
    hide Bundle.Unpack, WrittenEntries, Created, Incoming;
    var sections := Bundle.ReadBundle(file, c.parseHeader, c.parseConfig);
    if !sections.Sections? {
      return false;
    }
    var name := if rename.Some? then rename.value else sections.header.namespace;
    if name in engine.namespaces {
      return false;
    }
    var payload := c.unseal(sections.encrypted, sections.headerJson);
    if payload.None? {
      return false;
    }
    var entries := c.decode(payload.value);
    if entries.None? {
      return false;
    }
    var s := Incoming(name, sections.header.createdAt, sections.config, entries.value, c);
    IncomingFields(name, sections.header.createdAt, sections.config, entries.value, c);
    CreatedIsThere(engine.namespaces, s);
    engine.CreateNamespace(s);
    engine.ReplayNamespace(s, stamp);
    return true;
  }

  lemma IncomingFields(name: Bytes, createdAt: nat, config: Option<Json>, entries: seq<ExportEntry>, c: Codecs)
    ensures var s := Incoming(name, createdAt, config, entries, c); s.name == name && s.entries == entries
  {
  }

  /** The codecs are faithful on this namespace's header, config and entries. */
  predicate Lawful(name: Bytes, ns: NamespaceState, order: seq<Bytes>, c: Codecs)
    requires Lists(order, ns.keys)
  {
    var header := Header(name, 1, ns.createdAt, |order|);
    var entries := Exported(ns.keys, order);
    var json, config := c.printHeader(header), c.printConfig(ns.config);
    && c.parseHeader(json) == Some(header) && |json| < Bundle.TWO_TO_THE_32
    && c.parseConfig(config) == Some(ns.config) && Bundle.NoControls(config) && 1 <= |config| < Bundle.MAX_CONFIG
    && c.unseal(c.seal(c.encode(entries), json), json) == Some(c.encode(entries))
    && c.decode(c.encode(entries)) == Some(entries)
  }

  /**
    Export then import: into any engine without that name, the namespace arrives with its config, its
    creation time and its history, and every other namespace is untouched; into an engine that has the
    name, nothing happens.
   */
  lemma ExportThenImport(name: Bytes, ns: NamespaceState, order: seq<Bytes>, engine: Namespaces,
                         rename: Option<Bytes>, stamp: nat, c: Codecs)
    requires Lists(order, ns.keys) && Lawful(name, ns, order, c)
    ensures var target := if rename.Some? then rename.value else name;
            var r := ImportFile(engine, ExportFile(name, ns, order, c), rename, stamp, c);
            if target in engine then r == NameTaken
            else
              && r.Imported?
              && r.namespaces.Keys == engine.Keys + {target}
              && (forall n :: n in engine ==> r.namespaces[n] == engine[n])
              && r.namespaces[target].config == ns.config
              && r.namespaces[target].createdAt == ns.createdAt
              && (forall k :: k in r.namespaces[target].keys <==> k in ns.keys && ns.keys[k].versions != [])
              && (forall k :: k in r.namespaces[target].keys ==>
                    SameHistory(ns.keys[k], r.namespaces[target].keys[k], stamp))
  {
    hide ReplayEntries, WrittenEntries, Bundle.Packed, Bundle.Unpack, SameHistory;
    var json := c.printHeader(HeaderOf(name, ns, order));
    var cipher := c.seal(c.encode(Exported(ns.keys, order)), json);
    Bundle.UnpackRecoversExactly(json, cipher, c.printConfig(ns.config), c.parseHeader, c.parseConfig);
    ReplayPreservesHistory(ns.keys, order, stamp);
    var target := if rename.Some? then rename.value else name;
    if target !in engine {
      var s := Incoming(target, ns.createdAt, Some(ns.config), Exported(ns.keys, order), c);
      EntriesStayInside(Created(engine, s), target, s.entries, stamp);
    }
  }
}
