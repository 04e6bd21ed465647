/** Which files of a source set are normalized, and to what: a printed lock file by the name it has at the
  root, a printed manifest by its name in any directory, and no other file.
 */
module PrintedSources {
  import opened IdentityFraming
  import Lock = LockPrinter
  import Manifest = ManifestPrinter
  import opened VersionedIdentity
  import opened Wrappers

  ghost predicate NamesManifest(path: string) {
    path == "Cargo.toml" || exists directory: string :: path == directory + "/Cargo.toml"
  }

  lemma ManifestsAre(path: string)
    ensures IsManifest(path) <==> NamesManifest(path)
  {
    if IsManifest(path) && path != "Cargo.toml" {
      assert path == path[..|path| - 11] + "/Cargo.toml";
    }
    if directory: string :| path == directory + "/Cargo.toml" {
      assert path[|path| - 10..] == "Cargo.toml" && path[|path| - 11] == '/';
    }
  }

  // The versions of our own packages become "0.0.0", those of all others count.
  lemma LockFile(c: Codec, word: char -> bool, ps: seq<Lock.Pinned>)
    requires ValidCodec(c) && Lock.Printable(ps)
    ensures NormalFile(c, word, Source("Cargo.lock", c.encode(Lock.Render(ps))))
         == Some(File(c.encode("Cargo.lock"), c.encode(Lock.Render(Lock.AllUnversioned(ps)))))
  {
    hide IsManifest, Lock.Printable, Lock.Render;
    Lock.NormalizePrinted(ps);
  }

  // The workspace version and the internal path dependencies of that very manifest become "0.0.0".
  lemma ManifestFile(c: Codec, word: char -> bool, path: string, m: Manifest.Manifest)
    requires ValidCodec(c) && NamesManifest(path) && Manifest.Printable(m) && !word(' ')
    ensures NormalFile(c, word, Source(path, c.encode(Manifest.Render(m))))
         == Some(File(c.encode(path), c.encode(Manifest.Render(Manifest.UnversionedManifest(path, m)))))
  {
    hide IsManifest, NamesManifest, Manifest.Printable, Manifest.Render, Manifest.UnversionedManifest;
    ManifestsAre(path);
    NoLock(path);
    Manifest.NormalizePrinted(path, word, m);
  }

  lemma NoLock(path: string)
    requires NamesManifest(path)
    ensures path != "Cargo.lock"
  {
    ManifestsAre(path);
    assert "Cargo.lock"[9] != "Cargo.toml"[9];
    if |path| > 10 { assert |path| != |"Cargo.lock"|; }
  }

  // Every other file counts byte by byte; one of the two kinds that is no text has no normal form.
  lemma OtherFile(c: Codec, word: char -> bool, f: Source)
    ensures f.path != "Cargo.lock" && !NamesManifest(f.path) ==>
              NormalFile(c, word, f) == Some(File(c.encode(f.path), f.content))
    ensures f.path == "Cargo.lock" || NamesManifest(f.path) ==>
              (NormalFile(c, word, f).None? <==> c.decode(f.content).None?)
  {
    hide IsManifest, NamesManifest, NormalText;
    ManifestsAre(f.path);
  }
}
