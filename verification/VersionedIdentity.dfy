/** The version-normalized identity of a source set: what it cannot see, and that it sees everything else. */
module VersionedIdentity {
  import opened IdentityFraming
  import Lock = LockNormalization
  import Manifest = ManifestNormalization
  import TextLines
  import opened Wrappers

  // UTF-8, as far as the identity relies on it.
  datatype Codec = Codec(encode: string -> Bytes, decode: Bytes -> Option<string>)

  ghost predicate ValidCodec(c: Codec) {
    && (forall t: string {:trigger c.encode(t)} :: c.decode(c.encode(t)) == Some(t))
    && (forall b: Bytes {:trigger c.decode(b)} :: c.decode(b).Some? ==> c.encode(c.decode(b).value) == b)
  }

  datatype Source = Source(path: string, content: Bytes)

  const LOCK: string := "Cargo.lock"
  const MANIFEST: string := "Cargo.toml"

  predicate IsManifest(path: string) {
    path == MANIFEST || (|path| > |MANIFEST| && path[|path| - |MANIFEST|..] == MANIFEST
        && path[|path| - |MANIFEST| - 1] == '/')
  }

  // The text a file is normalized to; files of other kinds are taken as they are.
  function NormalText(word: char -> bool, path: string, text: string): string {
    if path == LOCK then Lock.Normalize(text) else Manifest.Normalize(Manifest.RulesFor(path), word, text)
  }

  function NormalFile(c: Codec, word: char -> bool, f: Source): Option<File> {
    if f.path != LOCK && !IsManifest(f.path) then Some(File(c.encode(f.path), f.content))
    else
      var text := c.decode(f.content);
      if text.None? then None else Some(File(c.encode(f.path), c.encode(NormalText(word, f.path, text.value))))
  }

  function NormalFiles(c: Codec, word: char -> bool, files: seq<Source>): Option<seq<File>> {
    if files == [] then Some([])
    else
      var first, rest := NormalFile(c, word, files[0]), NormalFiles(c, word, files[1..]);
      if first.None? || rest.None? then None else Some([first.value] + rest.value)
  }

  // What is hashed: nothing when a file cannot be decoded or is too long to frame.
  method Preimage(c: Codec, word: char -> bool, domain: Bytes, files: seq<Source>) returns (fed: Option<Bytes>)
    ensures fed.Some? <==> NormalFiles(c, word, files).Some? && Fits(NormalFiles(c, word, files).value)
    ensures fed.Some? ==> fed.value == domain + Stream(NormalFiles(c, word, files).value)
  {
    var normal := NormalFiles(c, word, files);
    if normal.None? { return None; }
    fed := SourceDigestInput(domain, normal.value);
  }

  // --- blindness --------------------------------------------------------------

  // The same file, or a lock or manifest in which only enumerated version values differ, every
  // changed manifest line still passing the test on its path field.
  ghost predicate SameBesideVersions(c: Codec, word: char -> bool, a: Source, b: Source) {
    a.path == b.path &&
    (a.content == b.content
     || (c.decode(a.content).Some? && c.decode(b.content).Some?
         && var x, y := TextLines.SplitLines(c.decode(a.content).value),
            TextLines.SplitLines(c.decode(b.content).value);
            if a.path == LOCK then Lock.Refilled(x, y)
            else IsManifest(a.path)
                 && Manifest.Refilled(Manifest.RulesFor(a.path), word, "", x, y)
                 && Manifest.Recognized(Manifest.RulesFor(a.path), word, "", x, y)))
  }

  lemma FileBlind(c: Codec, word: char -> bool, a: Source, b: Source)
    requires SameBesideVersions(c, word, a, b)
    ensures NormalFile(c, word, a) == NormalFile(c, word, b)
  {
    hide Lock.Refilled, Lock.Normalize, Manifest.Refilled, Manifest.Recognized, Manifest.Normalize, Manifest.RulesFor,
         TextLines.SplitLines;
    if a.content != b.content {
      var x, y := c.decode(a.content).value, c.decode(b.content).value;
      if a.path == LOCK {
        Lock.NormalizeBlind(x, y);
      } else {
        Manifest.RulesArePlain(a.path);
        Manifest.NormalizeBlind(Manifest.RulesFor(a.path), word, x, y);
      }
    }
  }

  // Source sets that differ only in enumerated versions are hashed from the same bytes.
  lemma {:induction false} IdentityBlind(c: Codec, word: char -> bool, a: seq<Source>, b: seq<Source>)
    requires |a| == |b| && forall i :: 0 <= i < |a| ==> SameBesideVersions(c, word, a[i], b[i])
    ensures NormalFiles(c, word, a) == NormalFiles(c, word, b)
  {
    hide SameBesideVersions, NormalFile;
    if a != [] {
      FileBlind(c, word, a[0], b[0]);
      IdentityBlind(c, word, a[1..], b[1..]);
    }
  }

  // --- and nothing else -------------------------------------------------------

  lemma {:induction false} NormalFilesAt(c: Codec, word: char -> bool, files: seq<Source>)
    requires NormalFiles(c, word, files).Some?
    ensures var r := NormalFiles(c, word, files).value;
            |r| == |files| && forall i :: 0 <= i < |files| ==> NormalFile(c, word, files[i]) == Some(r[i])
  {
    hide NormalFile;
    if files != [] {
      NormalFilesAt(c, word, files[1..]);
    }
  }

  lemma PathTells(c: Codec, word: char -> bool, a: Source, b: Source)
    requires ValidCodec(c) && NormalFile(c, word, a).Some? && NormalFile(c, word, a) == NormalFile(c, word, b)
    ensures a.path == b.path
  {
    hide NormalText, IsManifest;
    assert c.decode(c.encode(a.path)) == Some(a.path) && c.decode(c.encode(b.path)) == Some(b.path);
  }

  // Equal bytes under one domain tag mean the same paths in the same order, each with the same
  // normal form: every other difference between two source sets is seen.
  lemma IdentityTells(c: Codec, word: char -> bool, domain: Bytes, a: seq<Source>, b: seq<Source>)
    requires ValidCodec(c) && NormalFiles(c, word, a).Some? && NormalFiles(c, word, b).Some?
    requires Fits(NormalFiles(c, word, a).value) && Fits(NormalFiles(c, word, b).value)
    ensures domain + Stream(NormalFiles(c, word, a).value) == domain + Stream(NormalFiles(c, word, b).value) <==>
              |a| == |b| && forall i :: 0 <= i < |a| ==>
                  a[i].path == b[i].path && NormalFile(c, word, a[i]) == NormalFile(c, word, b[i])
  {
    hide NormalFile, NormalFiles, Stream, Fits, ValidCodec;
    var x, y := NormalFiles(c, word, a).value, NormalFiles(c, word, b).value;
    NormalFilesAt(c, word, a);
    NormalFilesAt(c, word, b);
    if domain + Stream(x) == domain + Stream(y) {
      StreamInjective(domain, x, y);
      forall i | 0 <= i < |a|
        ensures a[i].path == b[i].path && NormalFile(c, word, a[i]) == NormalFile(c, word, b[i])
      {
        PathTells(c, word, a[i], b[i]);
      }
    }
    if |a| == |b| && forall i :: 0 <= i < |a| ==> NormalFile(c, word, a[i]) == NormalFile(c, word, b[i]) {
      assert x == y;
    }
  }
}
