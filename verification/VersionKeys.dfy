/** The framing line and the field keys of a version object (object/version.go, E33). */
module VersionKeys {
  import opened Common
  import opened Lines

  datatype Keys = Keys(
    header: Bytes,
    manifest: Bytes,
    parent: Bytes,
    author: Bytes,
    time: Bytes,
    expiry: Bytes,
    graph: Bytes)

  const VERSION_KEYS := Keys("fibula-version v1", "manifest", "parent", "author", "time", "expiry", "graph")

  /** What the proofs need of them: good fields, and told apart where the parser peeks. */
  predicate GoodKeys(ks: Keys) {
    && GoodLine(ks.header) && !StartsWithBom(ks.header + [LF])
    && FieldOk(ks.manifest) && FieldOk(ks.parent) && FieldOk(ks.author)
    && FieldOk(ks.time) && FieldOk(ks.expiry) && FieldOk(ks.graph)
    && TAB !in ks.header && ks.parent != ks.author
    && ks.expiry != ks.manifest && ks.expiry != ks.parent && ks.expiry != ks.author && ks.expiry != ks.time
    && ks.graph != ks.manifest && ks.graph != ks.parent && ks.graph != ks.author && ks.graph != ks.time
    && ks.expiry != ks.graph
  }

  predicate Plain(s: Bytes) {
    Ascii(s) && TAB !in s && LF !in s && '\r' !in s
  }

  lemma PlainIsGoodField(s: Bytes)
    requires Plain(s)
    ensures FieldOk(s)
  {
    AsciiIsUtf8(s);
  }

  lemma HeaderIsPlain()
    ensures Plain("fibula-version v1") && LineOk("fibula-version v1")
  {
  }

  lemma HeadKeysArePlain()
    ensures Plain("manifest") && Plain("parent") && Plain("author")
  {
  }

  lemma TailKeysArePlain()
    ensures Plain("time") && Plain("expiry") && Plain("graph")
  {
  }

  lemma VersionKeysAreGood()
    ensures GoodKeys(VERSION_KEYS)
  {
    HeaderIsPlain();
    HeadKeysArePlain();
    TailKeysArePlain();
    AsciiLineIsGood("fibula-version v1");
    PlainIsGoodField("manifest");
    PlainIsGoodField("parent");
    PlainIsGoodField("author");
    PlainIsGoodField("time");
    PlainIsGoodField("expiry");
    PlainIsGoodField("graph");
  }
}
