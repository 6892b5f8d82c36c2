/**
  Consolidation of the per-subtree checksum manifests of a package into the
  package's canonical manifest (`consolidate_manifests`).

  A manifest line is `<32-character MD5 digest><two spaces><path>` as
  `readlines` returns it (newline included). Every line of every recognised
  manifest in `<package>/<directory>` is rewritten so that its path is
  relative to the package's parent directory, the rewritten lines are
  collected in listing order, and the collection is appended to
  `<parent>/<uuid>_manifest.md5`. Each recognised manifest is then archived
  into `<package>/logs`, with two provenance events per manifest.
 */
module ManifestConsolidation {
  import opened PyStr
  import opened PosixPath
  import opened Wrappers

  /** Length of an MD5 digest in hexadecimal: the only digest the slicing offsets allow for. */
  const DigestLength: nat := 32
  const Separator: string := "  "
  /** Offset of the path within a manifest line. */
  const PathOffset: nat := DigestLength + |Separator|

  /** One entry of the subtree's directory listing, with the lines of the file it names. */
  datatype ListingEntry = ListingEntry(name: string, lines: seq<string>)

  /** The archival move of a manifest file into the package's `logs` directory. */
  datatype Move = Move(source: string, destination: string)

  /** A well-formed manifest line: a digest, then the two-space separator, then the path. */
  predicate IsRecordLine(line: string) {
    |line| >= PathOffset && line[DigestLength..PathOffset] == Separator
  }

  /** The prefix inserted in front of every path: `<uuid>/<directory>/`. */
  function PathPrefix(uuid: string, directory: string): string {
    uuid + "/" + directory + "/"
  }

  /** One line rewritten: digest kept, separator re-emitted, prefix inserted before the old path. */
  function RewriteLine(line: string, uuid: string, directory: string): string {
    Take(line, DigestLength) + Separator + (uuid + "/" + directory + "/" + Drop(line, PathOffset))
  }

  /**
    The inverse of the rewrite: strips the inserted prefix from a rewritten
    line, or `None` when the line does not carry it.
   */
  function OriginalLine(line: string, uuid: string, directory: string): Option<string> {
    var prefix := PathPrefix(uuid, directory);
    if IsRecordLine(line) && |line| >= PathOffset + |prefix|
       && line[PathOffset..PathOffset + |prefix|] == prefix
    then Some(line[..PathOffset] + line[PathOffset + |prefix|..])
    else None
  }

  /**
    Rewriting a well-formed line keeps its digest, keeps it well-formed, and
    makes its path the old path under `<uuid>/<directory>/`.
   */
  lemma RewriteKeepsDigest(line: string, uuid: string, directory: string)
    requires IsRecordLine(line)
    ensures var r := RewriteLine(line, uuid, directory);
      && IsRecordLine(r)
      && r[..DigestLength] == line[..DigestLength]
      && r[PathOffset..] == PathPrefix(uuid, directory) + line[PathOffset..]
  {
  }

  /** On any line, the first 32 characters (or the whole of a shorter line) survive the rewrite. */
  lemma RewriteKeepsLeadingCharacters(line: string, uuid: string, directory: string)
    ensures var r := RewriteLine(line, uuid, directory);
      |line| >= DigestLength ==> r[..DigestLength] == line[..DigestLength]
    ensures |line| < DigestLength ==> RewriteLine(line, uuid, directory)[..|line|] == line
  {
  }

  /**
    A line shorter than a digest and its separator no longer ends with its
    newline: the rewritten line ends with the `/` of the inserted prefix. A
    line shorter than 32 characters, such as a bare newline, is kept whole
    with the inserted text after it; a character at index 32 or 33, a
    newline there included, is dropped.
   */
  lemma RewriteShortLine(line: string, uuid: string, directory: string)
    requires |line| < PathOffset
    ensures var r := RewriteLine(line, uuid, directory);
      && |r| > 0 && r[|r| - 1] == '/'
      && (|line| < DigestLength ==> r == line + Separator + PathPrefix(uuid, directory))
      && (|line| >= DigestLength ==> r == line[..DigestLength] + Separator + PathPrefix(uuid, directory))
  {
  }

  /** A well-formed line that ends with a newline still ends with it after the rewrite. */
  lemma RewriteKeepsTrailingNewline(line: string, uuid: string, directory: string)
    requires IsRecordLine(line) && line[|line| - 1] == '\n'
    ensures |line| > PathOffset
    ensures var r := RewriteLine(line, uuid, directory);
      |r| > 0 && r[|r| - 1] == '\n'
  {
  }

  /** The rewrite loses nothing on a well-formed line: stripping the prefix gives the line back. */
  lemma RewriteRoundTrip(line: string, uuid: string, directory: string)
    requires IsRecordLine(line)
    ensures OriginalLine(RewriteLine(line, uuid, directory), uuid, directory) == Some(line)
  {
    var r := RewriteLine(line, uuid, directory);
    var prefix := PathPrefix(uuid, directory);
    assert r == line[..PathOffset] + prefix + line[PathOffset..];
    assert r[PathOffset..PathOffset + |prefix|] == prefix;
    assert r[..PathOffset] + r[PathOffset + |prefix|..] == line;
  }

  /** All lines of one manifest, rewritten, in their order. */
  function RewriteLines(lines: seq<string>, uuid: string, directory: string): seq<string> {
    seq(|lines|, k requires 0 <= k < |lines| => RewriteLine(lines[k], uuid, directory))
  }

  /** What one listing entry adds to the collected lines: nothing unless it is a manifest. */
  function Contribution(e: ListingEntry, isManifest: string -> bool, uuid: string, directory: string): seq<string> {
    if isManifest(e.name) then RewriteLines(e.lines, uuid, directory) else []
  }

  /** The collected rewritten lines of a listing, in listing order. */
  function Collected(listing: seq<ListingEntry>, isManifest: string -> bool, uuid: string, directory: string): seq<string>
    decreases |listing|
  {
    if listing == [] then []
    else Contribution(listing[0], isManifest, uuid, directory) + Collected(listing[1..], isManifest, uuid, directory)
  }

  /** The number of lines in the recognised manifests of a listing. */
  function RecognisedLineCount(listing: seq<ListingEntry>, isManifest: string -> bool): nat
    decreases |listing|
  {
    if listing == [] then 0
    else (if isManifest(listing[0].name) then |listing[0].lines| else 0)
         + RecognisedLineCount(listing[1..], isManifest)
  }

  /** The names of the recognised manifests, in listing order. */
  function Recognised(listing: seq<ListingEntry>, isManifest: string -> bool): seq<string>
    decreases |listing|
  {
    if listing == [] then []
    else (if isManifest(listing[0].name) then [listing[0].name] else [])
         + Recognised(listing[1..], isManifest)
  }

  function ConsolidationEvent(objectsDir: string, name: string, manifestPath: string): string {
    "EVENT = Manifest consolidation - Checksums from " + Join(objectsDir, name)
    + " merged into " + manifestPath
  }

  function MovementEvent(objectsDir: string, name: string, logsDir: string): string {
    "EVENT = Manifest movement - Manifest from " + objectsDir + "/" + name + " to " + logsDir
  }

  /** The archival moves of the recognised manifests, in listing order. */
  function Moves(listing: seq<ListingEntry>, isManifest: string -> bool, objectsDir: string, logsDir: string): seq<Move>
    decreases |listing|
  {
    if listing == [] then []
    else (if isManifest(listing[0].name) then [Move(objectsDir + "/" + listing[0].name, logsDir)] else [])
         + Moves(listing[1..], isManifest, objectsDir, logsDir)
  }

  /** The provenance events of the consolidation: two per recognised manifest, in listing order. */
  function Events(listing: seq<ListingEntry>, isManifest: string -> bool,
                  objectsDir: string, logsDir: string, manifestPath: string): seq<string>
    decreases |listing|
  {
    if listing == [] then []
    else (if isManifest(listing[0].name)
          then [ConsolidationEvent(objectsDir, listing[0].name, manifestPath),
                MovementEvent(objectsDir, listing[0].name, logsDir)]
          else [])
         + Events(listing[1..], isManifest, objectsDir, logsDir, manifestPath)
  }

  /** The canonical manifest of a package: a sibling of the package directory, named after its UUID. */
  function CanonicalManifestPath(path: string): string {
    Join(Dirname(path), Basename(path) + "_manifest.md5")
  }

  lemma CanonicalManifestIsSibling(path: string)
    ensures Dirname(CanonicalManifestPath(path)) == Dirname(path)
    ensures Basename(CanonicalManifestPath(path)) == Basename(path) + "_manifest.md5"
  {
    var n := Basename(path) + "_manifest.md5";
    assert '/' !in n by {
      forall i | 0 <= i < |n| ensures n[i] != '/' {
        if i < |Basename(path)| { assert n[i] == Basename(path)[i]; }
      }
    }
    DirnameIsShaped(path);
    BasenameOfJoin(Dirname(path), n);
    DirnameOfJoin(Dirname(path), n);
  }

  /** Collecting over two listings in turn is collecting over their concatenation. */
  lemma {:induction false} CollectedAppend(a: seq<ListingEntry>, b: seq<ListingEntry>,
                                           isManifest: string -> bool, uuid: string, directory: string)
    ensures Collected(a + b, isManifest, uuid, directory)
         == Collected(a, isManifest, uuid, directory) + Collected(b, isManifest, uuid, directory)
    decreases |a|
  {
    if a != [] {
      assert (a + b)[1..] == a[1..] + b;
      CollectedAppend(a[1..], b, isManifest, uuid, directory);
    } else {
      assert a + b == b;
    }
  }

  lemma {:induction false} MovesAppend(a: seq<ListingEntry>, b: seq<ListingEntry>,
                                       isManifest: string -> bool, objectsDir: string, logsDir: string)
    ensures Moves(a + b, isManifest, objectsDir, logsDir)
         == Moves(a, isManifest, objectsDir, logsDir) + Moves(b, isManifest, objectsDir, logsDir)
    decreases |a|
  {
    if a != [] {
      assert (a + b)[1..] == a[1..] + b;
      MovesAppend(a[1..], b, isManifest, objectsDir, logsDir);
    } else {
      assert a + b == b;
    }
  }

  lemma {:induction false} EventsAppend(a: seq<ListingEntry>, b: seq<ListingEntry>, isManifest: string -> bool,
                                        objectsDir: string, logsDir: string, manifestPath: string)
    ensures Events(a + b, isManifest, objectsDir, logsDir, manifestPath)
         == Events(a, isManifest, objectsDir, logsDir, manifestPath)
          + Events(b, isManifest, objectsDir, logsDir, manifestPath)
    decreases |a|
  {
    if a != [] {
      assert (a + b)[1..] == a[1..] + b;
      EventsAppend(a[1..], b, isManifest, objectsDir, logsDir, manifestPath);
    } else {
      assert a + b == b;
    }
  }

  /** Extending a listing prefix by one entry extends each result by that entry's share. */
  lemma ListingStep(listing: seq<ListingEntry>, i: nat, isManifest: string -> bool, uuid: string, directory: string,
                    objectsDir: string, logsDir: string, manifestPath: string)
    requires i < |listing|
    ensures var e := listing[i];
      && Collected(listing[..i + 1], isManifest, uuid, directory)
         == Collected(listing[..i], isManifest, uuid, directory) + Contribution(e, isManifest, uuid, directory)
      && Moves(listing[..i + 1], isManifest, objectsDir, logsDir)
         == Moves(listing[..i], isManifest, objectsDir, logsDir)
            + (if isManifest(e.name) then [Move(objectsDir + "/" + e.name, logsDir)] else [])
      && Events(listing[..i + 1], isManifest, objectsDir, logsDir, manifestPath)
         == Events(listing[..i], isManifest, objectsDir, logsDir, manifestPath)
            + (if isManifest(e.name)
               then [ConsolidationEvent(objectsDir, e.name, manifestPath), MovementEvent(objectsDir, e.name, logsDir)]
               else [])
  {
    var e := listing[i];
    assert listing[..i + 1] == listing[..i] + [e];
    CollectedAppend(listing[..i], [e], isManifest, uuid, directory);
    MovesAppend(listing[..i], [e], isManifest, objectsDir, logsDir);
    EventsAppend(listing[..i], [e], isManifest, objectsDir, logsDir, manifestPath);
  }

  /** One collected line per line of each recognised manifest, and none for anything else. */
  lemma {:induction false} CollectedLength(listing: seq<ListingEntry>, isManifest: string -> bool,
                                           uuid: string, directory: string)
    ensures |Collected(listing, isManifest, uuid, directory)| == RecognisedLineCount(listing, isManifest)
    decreases |listing|
  {
    if listing != [] {
      CollectedLength(listing[1..], isManifest, uuid, directory);
    }
  }

  /**
    Order: line `j` of the recognised manifest at listing position `i` is
    found, rewritten, right after the lines of the recognised manifests that
    precede it in the listing.
   */
  lemma CollectedAt(listing: seq<ListingEntry>, isManifest: string -> bool,
                    uuid: string, directory: string, i: nat, j: nat)
    requires i < |listing| && isManifest(listing[i].name)
    requires j < |listing[i].lines|
    ensures var c := Collected(listing, isManifest, uuid, directory);
      var at := RecognisedLineCount(listing[..i], isManifest) + j;
      at < |c| && c[at] == RewriteLine(listing[i].lines[j], uuid, directory)
  {
    var before, rest := listing[..i], listing[i + 1..];
    assert listing == before + ([listing[i]] + rest);
    CollectedAppend(before, [listing[i]] + rest, isManifest, uuid, directory);
    CollectedLength(before, isManifest, uuid, directory);
    assert ([listing[i]] + rest)[1..] == rest;
  }

  /** Two provenance events per recognised manifest. */
  lemma {:induction false} EventCount(listing: seq<ListingEntry>, isManifest: string -> bool,
                                      objectsDir: string, logsDir: string, manifestPath: string)
    ensures |Events(listing, isManifest, objectsDir, logsDir, manifestPath)| == 2 * |Recognised(listing, isManifest)|
    decreases |listing|
  {
    if listing != [] {
      EventCount(listing[1..], isManifest, objectsDir, logsDir, manifestPath);
    }
  }

  /** The k-th archival move takes the k-th recognised manifest from the subtree into `logs`. */
  lemma {:induction false} MovesOfRecognised(listing: seq<ListingEntry>, isManifest: string -> bool,
                                             objectsDir: string, logsDir: string)
    ensures var moves, names := Moves(listing, isManifest, objectsDir, logsDir), Recognised(listing, isManifest);
      |moves| == |names| && forall k | 0 <= k < |names| :: moves[k] == Move(objectsDir + "/" + names[k], logsDir)
    decreases |listing|
  {
    if listing != [] {
      MovesOfRecognised(listing[1..], isManifest, objectsDir, logsDir);
      var moves, names := Moves(listing, isManifest, objectsDir, logsDir), Recognised(listing, isManifest);
      var moves', names' := Moves(listing[1..], isManifest, objectsDir, logsDir), Recognised(listing[1..], isManifest);
      if isManifest(listing[0].name) {
        assert moves == [Move(objectsDir + "/" + listing[0].name, logsDir)] + moves';
        assert names == [listing[0].name] + names';
        forall k | 1 <= k < |names| ensures moves[k] == Move(objectsDir + "/" + names[k], logsDir) {
          assert moves[k] == moves'[k - 1] && names[k] == names'[k - 1];
        }
      } else {
        assert moves == moves' && names == names';
      }
    }
  }

  /** A listing with no recognised manifest contributes no line, no move and no event. */
  lemma {:induction false} NothingRecognised(listing: seq<ListingEntry>, isManifest: string -> bool,
                                             uuid: string, directory: string,
                                             objectsDir: string, logsDir: string, manifestPath: string)
    requires forall i | 0 <= i < |listing| :: !isManifest(listing[i].name)
    ensures Collected(listing, isManifest, uuid, directory) == []
    ensures Moves(listing, isManifest, objectsDir, logsDir) == []
    ensures Events(listing, isManifest, objectsDir, logsDir, manifestPath) == []
    decreases |listing|
  {
    if listing != [] {
      assert !isManifest(listing[0].name);
      NothingRecognised(listing[1..], isManifest, uuid, directory, objectsDir, logsDir, manifestPath);
    }
  }

  /**
    The entries a consolidation leaves behind: the archived manifests are
    gone from the subtree, and every other entry is still there.
   */
  function Remaining(listing: seq<ListingEntry>, isManifest: string -> bool): (r: seq<ListingEntry>)
    ensures forall i | 0 <= i < |r| :: !isManifest(r[i].name)
    ensures forall e :: e in r <==> e in listing && !isManifest(e.name)
    ensures |r| == |listing| - |Recognised(listing, isManifest)|
    decreases |listing|
  {
    if listing == [] then []
    else
      assert listing == [listing[0]] + listing[1..];
      (if isManifest(listing[0].name) then [] else [listing[0]]) + Remaining(listing[1..], isManifest)
  }

  /** The rewritten lines of one manifest, in the manifest's line order. */
  method RewriteManifest(manifestLines: seq<string>, uuid: string, directory: string)
    returns (rewritten: seq<string>)
    ensures rewritten == RewriteLines(manifestLines, uuid, directory)
  {
    rewritten := [];
    var j := 0;
    while j < |manifestLines|
      invariant 0 <= j <= |manifestLines|
      invariant |rewritten| == j
      invariant forall k | 0 <= k < j :: rewritten[k] == RewriteLine(manifestLines[k], uuid, directory)
    {
      rewritten := rewritten + [RewriteLine(manifestLines[j], uuid, directory)];
      j := j + 1;
    }
  }

  /**
    Consolidates the manifests of `<path>/<directory>`: returns the canonical
    manifest's path and its new contents (`existing` followed by every
    rewritten line), the archival moves and the provenance events.
   */
  method ConsolidateManifests(path: string, directory: string, listing: seq<ListingEntry>,
                              isManifest: string -> bool, existing: seq<string>)
    returns (manifestPath: string, contents: seq<string>, moves: seq<Move>, events: seq<string>)
    ensures manifestPath == CanonicalManifestPath(path)
    ensures contents == existing + Collected(listing, isManifest, Basename(path), directory)
    ensures moves == Moves(listing, isManifest, Join(path, directory), Join(path, "logs"))
    ensures events == Events(listing, isManifest, Join(path, directory), Join(path, "logs"), manifestPath)
  {
    var uuid := Basename(path);
    var objectsDir := Join(path, directory);
    var logsDir := Join(path, "logs");
    manifestPath := Join(Dirname(path), uuid + "_manifest.md5");
    var collective: seq<string> := [];
    moves, events := [], [];
    var i := 0;
    while i < |listing|
      invariant 0 <= i <= |listing|
      invariant collective == Collected(listing[..i], isManifest, uuid, directory)
      invariant moves == Moves(listing[..i], isManifest, objectsDir, logsDir)
      invariant events == Events(listing[..i], isManifest, objectsDir, logsDir, manifestPath)
    {
      var manifest := listing[i];
      if isManifest(manifest.name) {
        events := events + [ConsolidationEvent(objectsDir, manifest.name, manifestPath)];
        var rewritten := RewriteManifest(manifest.lines, uuid, directory);
        collective := collective + rewritten;
        moves := moves + [Move(objectsDir + "/" + manifest.name, logsDir)];
        events := events + [MovementEvent(objectsDir, manifest.name, logsDir)];
      }
      ListingStep(listing, i, isManifest, uuid, directory, objectsDir, logsDir, manifestPath);
      i := i + 1;
    }
    assert listing[..i] == listing;
    contents := existing + collective;
  }

  /**
    The canonical manifest is only appended to: it grows by exactly the
    recognised line count, and keeps its earlier contents alone when nothing
    is recognised. (That the earlier contents stay a prefix follows from the
    shape `existing + Collected(...)` that `ConsolidateManifests` ensures.)
   */
  lemma ConsolidationAppendsOnly(path: string, directory: string, listing: seq<ListingEntry>,
                                 isManifest: string -> bool, existing: seq<string>)
    ensures var added := Collected(listing, isManifest, Basename(path), directory);
      && |existing + added| == |existing| + RecognisedLineCount(listing, isManifest)
      && (existing + added)[..|existing|] == existing
      && ((forall i | 0 <= i < |listing| :: !isManifest(listing[i].name)) ==> existing + added == existing)
  {
    CollectedLength(listing, isManifest, Basename(path), directory);
    if forall i | 0 <= i < |listing| :: !isManifest(listing[i].name) {
      NothingRecognised(listing, isManifest, Basename(path), directory, "", "", "");
    }
  }

  /**
    Running the consolidation again on what the first run left in the subtree
    adds nothing to the canonical manifest and archives nothing.
   */
  lemma SecondConsolidationIsNoOp(path: string, directory: string, listing: seq<ListingEntry>,
                                  isManifest: string -> bool, existing: seq<string>)
    ensures var left := Remaining(listing, isManifest);
      && existing + Collected(left, isManifest, Basename(path), directory) == existing
      && Moves(left, isManifest, Join(path, directory), Join(path, "logs")) == []
      && Events(left, isManifest, Join(path, directory), Join(path, "logs"), CanonicalManifestPath(path)) == []
  {
    var left := Remaining(listing, isManifest);
    NothingRecognised(left, isManifest, Basename(path), directory,
                      Join(path, directory), Join(path, "logs"), CanonicalManifestPath(path));
  }
}
