/**
  Normalisation of the objects manifest of a root-copy package
  (`normalise_objects_manifest`): `<sip>/objects_manifest.md5`, when it
  exists, has every `"  objects/"` in every line replaced by `"  "` (paths
  become relative to `objects/`), and is then moved into `<sip>/objects`.
 */
module ObjectsManifest {
  import opened Wrappers
  import opened PyStr
  import opened PosixPath

  const ObjectsPrefix: string := "  objects/"
  const Separator: string := "  "

  /** `line.replace('  objects/', '  ')`. */
  function NormaliseLine(line: string): string {
    ReplaceAll(line, ObjectsPrefix, Separator)
  }

  /** The manifest after normalisation: where it now lives and its lines. */
  datatype Relocated = Relocated(path: string, lines: seq<string>)

  function ObjectsManifestPath(sipPath: string): string {
    Join(sipPath, "objects_manifest.md5")
  }

  /**
    Normalises the objects manifest, given the lines of
    `<sip>/objects_manifest.md5` (`None` when there is no such file, in which
    case nothing happens).
   */
  method NormaliseObjectsManifest(sipPath: string, manifest: Option<seq<string>>)
    returns (result: Option<Relocated>)
    ensures result.None? <==> manifest.None?
    ensures result.Some? ==>
      && result.value.path == Join(Join(sipPath, "objects"), Basename(ObjectsManifestPath(sipPath)))
      && |result.value.lines| == |manifest.value|
      && forall k | 0 <= k < |manifest.value| :: result.value.lines[k] == NormaliseLine(manifest.value[k])
  {
    var objectsManifest := ObjectsManifestPath(sipPath);
    if manifest.None? {
      return None;
    }
    var manifestLines := manifest.value;
    var updated: seq<string> := [];
    var i := 0;
    while i < |manifestLines|
      invariant 0 <= i <= |manifestLines|
      invariant |updated| == i
      invariant forall k | 0 <= k < i :: updated[k] == NormaliseLine(manifestLines[k])
    {
      var replacement := ReplaceAll(manifestLines[i], "  objects/", "  ");
      updated := updated + [replacement];
      i := i + 1;
    }
    result := Some(Relocated(Join(Join(sipPath, "objects"), Basename(objectsManifest)), updated));
  }

  /** A line without `"  objects/"` is left as it is. */
  lemma NormaliseLineUnchanged(line: string)
    requires !Contains(line, ObjectsPrefix)
    ensures NormaliseLine(line) == line
  {
    ReplaceAbsent(line, ObjectsPrefix, Separator);
  }

  /** Text before the first `"  objects/"` is untouched; that occurrence becomes `"  "`. */
  lemma NormaliseLineAtFirst(line: string, k: nat)
    requires OccursAt(line, ObjectsPrefix, k)
    requires forall j | 0 <= j < k :: !OccursAt(line, ObjectsPrefix, j)
    ensures NormaliseLine(line) == line[..k] + Separator + NormaliseLine(line[k + |ObjectsPrefix|..])
  {
    ReplaceAtFirst(line, ObjectsPrefix, Separator, k);
  }

  /** A leading run without spaces cannot start the pattern and is copied as it is. */
  lemma {:induction false} NormaliseSkipsSpaceFree(s: string, m: nat)
    requires m <= |s|
    requires forall i | 0 <= i < m :: s[i] != ' '
    ensures NormaliseLine(s) == s[..m] + NormaliseLine(s[m..])
    decreases m
  {
    if m > 0 {
      if |s| >= |ObjectsPrefix| {
        assert s[..|ObjectsPrefix|][0] == s[0];
      }
      NormaliseSkipsSpaceFree(s[1..], m - 1);
      assert s[1..][m - 1..] == s[m..];
      assert [s[0]] + s[1..][..m - 1] == s[..m];
    }
  }

  /**
    On a manifest line `<digest>  objects/<path>` with a space-free digest,
    the digest is kept and only the leading `objects/` of the path is dropped
    (further occurrences in the path are replaced as well).
   */
  lemma NormaliseRecordLine(digest: string, path: string)
    requires forall i | 0 <= i < |digest| :: digest[i] != ' '
    ensures NormaliseLine(digest + ObjectsPrefix + path) == digest + Separator + NormaliseLine(path)
  {
    var s := digest + ObjectsPrefix + path;
    NormaliseSkipsSpaceFree(s, |digest|);
    assert s[..|digest|] == digest;
    assert s[|digest|..] == ObjectsPrefix + path;
    assert (ObjectsPrefix + path)[..|ObjectsPrefix|] == ObjectsPrefix;
    assert (ObjectsPrefix + path)[|ObjectsPrefix|..] == path;
  }

  /**
    Normalisation is not idempotent: a path that itself starts with
    `objects/` still contains the pattern after one pass.
   */
  lemma NormaliseNotIdempotent(digest: string, path: string)
    requires forall i | 0 <= i < |digest| :: digest[i] != ' '
    ensures NormaliseLine(digest + ObjectsPrefix + "objects/" + path) == digest + ObjectsPrefix + NormaliseLine(path)
    ensures Contains(NormaliseLine(digest + ObjectsPrefix + "objects/" + path), ObjectsPrefix)
  {
    var inner := "objects/" + path;
    assert digest + ObjectsPrefix + "objects/" + path == digest + ObjectsPrefix + inner;
    NormaliseRecordLine(digest, inner);
    NormaliseSkipsSpaceFree(inner, 8);
    assert inner[..8] == "objects/" && inner[8..] == path;
    var r := digest + ObjectsPrefix + NormaliseLine(path);
    assert OccursAt(r, ObjectsPrefix, |digest|) by {
      assert r[|digest|..|digest| + |ObjectsPrefix|] == ObjectsPrefix;
    }
  }
}
