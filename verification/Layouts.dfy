/** The three text formats line by line, with their keywords (object/file.go, object/manifest.go, object/version.go). */
module Layouts {
  import opened Common
  import opened Objects
  import opened Lines
  import opened Values
  import opened Codec
  import opened VersionKeys
  import opened VersionCodec

  lemma TwoFields(a: Bytes, b: Bytes)
    ensures Line([a, b]) == a + "\t" + b
  {
    assert [a, b][1..] == [b] && Join([b], TAB) == b && [TAB] == "\t";
  }

  lemma ThreeFields(a: Bytes, b: Bytes, c: Bytes)
    ensures Line([a, b, c]) == a + "\t" + b + "\t" + c
  {
    assert [a, b, c][1..] == [b, c];
    TwoFields(b, c);
  }

  /** A file object: the framing line, the size, and a line per chunk. */
  lemma FileLayout(f: File) returns (ls: seq<Bytes>)
    requires ValidFile(f)
    ensures EncodeFile(f) == Some(Text(ls)) && |ls| == 2 + |f.chunks|
    ensures ls[0] == "fibula-file v1" && ls[1] == "size" + "\t" + FormatInt(f.size)
    ensures forall i | 0 <= i < |f.chunks| :: ls[i + 2] == f.chunks[i].id + "\t" + FormatInt(f.chunks[i].length)
  {
    ls := FileLines(f);
    TwoFields("size", FormatInt(f.size));
    forall i | 0 <= i < |f.chunks| ensures ls[i + 2] == f.chunks[i].id + "\t" + FormatInt(f.chunks[i].length) {
      TwoFields(f.chunks[i].id, FormatInt(f.chunks[i].length));
    }
  }

  /** A manifest: the framing line, and a line per entry. */
  lemma ManifestLayout(u: Unicode, m: seq<Entry>) returns (ls: seq<Bytes>)
    requires ValidManifest(u, m)
    ensures EncodeManifest(u, m) == Some(Text(ls)) && |ls| == 1 + |m| && ls[0] == "fibula-manifest v1"
    ensures forall i | 0 <= i < |m| :: ls[i + 1] == m[i].path + "\t" + m[i].file + "\t" + FormatInt(m[i].size)
  {
    ls := ManifestLines(m);
    forall i | 0 <= i < |m| ensures ls[i + 1] == m[i].path + "\t" + m[i].file + "\t" + FormatInt(m[i].size) {
      ThreeFields(m[i].path, m[i].file, FormatInt(m[i].size));
    }
  }

  function ExpiryLine(v: Version): seq<Bytes>
    requires OnCalendar(v.expiry)
  {
    if v.expiry == ZERO_TIME then [] else ["expiry" + "\t" + FormatTime(v.expiry)]
  }

  function GraphLine(v: Version): seq<Bytes> {
    if v.graph == ZeroId() then [] else ["graph" + "\t" + v.graph]
  }

  /** A version: manifest, parents, author, time; expiry and graph where they are set; then the message. */
  lemma VersionLayout(u: Unicode, v: Version) returns (ls: seq<Bytes>)
    requires TypedVersion(v) && ValidVersion(u, v)
    ensures EncodeVersion(VERSION_KEYS, u, v) ==
            Some(Text(ls + if v.message == "" then [] else ["message"] + Split(v.message, '\n')))
    ensures var n := |v.parents|;
      && |ls| >= n + 4 && ls[0] == "fibula-version v1" && ls[1] == "manifest" + "\t" + v.manifest
      && (forall i | 0 <= i < n :: ls[i + 2] == "parent" + "\t" + v.parents[i])
      && ls[n + 2] == "author" + "\t" + v.author && ls[n + 3] == "time" + "\t" + FormatTime(v.time)
      && ls[n + 4..] == ExpiryLine(v) + GraphLine(v)
  {
    var e, g, n := v.expiry != ZERO_TIME, v.graph != ZeroId(), |v.parents|;
    ls := HeadLines(VERSION_KEYS, v);
    HeadLayout(VERSION_KEYS, v, e, g);
    TwoFields("manifest", v.manifest);
    TwoFields("author", v.author);
    TwoFields("time", FormatTime(v.time));
    TwoFields("expiry", FormatTime(v.expiry));
    TwoFields("graph", v.graph);
    forall i | 0 <= i < n ensures ls[i + 2] == "parent" + "\t" + v.parents[i] {
      assert ls[i + 2] == ls[2..n + 2][i] == ParentLines(VERSION_KEYS, v.parents)[i];
      TwoFields("parent", v.parents[i]);
    }
  }
}
