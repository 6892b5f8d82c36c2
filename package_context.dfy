/**
  The package context the consolidation works in: the object entry number
  (`get_object_entry`), the package path (`make_folder_path`) and the
  package UUID (`determine_uuid`).
 */
module PackageContext {
  import opened Wrappers
  import opened PyStr
  import opened PosixPath
  import ManifestConsolidation
  import LogConsolidation

  /**
    The command-line arguments these operations read: the output directory
    (`-o`), a UUID to reuse (`-u`), the object entry (`-oe`) and the
    special-collections switch (`-sc`). An absent string option is "".
   */
  datatype Args = Args(o: string, u: string, oe: string, sc: bool)

  const NotApplicable: string := "not_applicable"

  /** An object entry as the validation describes it: `oe` followed by four or five digits. */
  ghost predicate IsObjectEntry(s: string) {
    exists digits: string :: (|digits| == 4 || |digits| == 5) && IsDigitString(digits) && s == "oe" + digits
  }

  /**
    The object entry to use: `not_applicable` in special-collections mode,
    otherwise `-oe` when it passes the checks; `None` stands for falling back
    to asking the user.
   */
  function GetObjectEntry(args: Args): Option<string> {
    if !args.sc then
      if args.oe != "" then
        if Slice(args.oe, 0, 2) != "oe" then None
        else if !(4 <= |Drop(args.oe, 2)| < 6) then None
        else if !IsDigitString(Drop(args.oe, 2)) then None
        else Some(args.oe)
      else None
    else Some(NotApplicable)
  }

  /**
    The given object entry is used, unchanged, exactly when it is `oe`
    followed by four or five digits; special-collections mode ignores it.
   */
  lemma ObjectEntryAccepted(args: Args)
    ensures args.sc ==> GetObjectEntry(args) == Some(NotApplicable)
    ensures !args.sc ==> (GetObjectEntry(args) == Some(args.oe) <==> IsObjectEntry(args.oe))
    ensures !args.sc ==> GetObjectEntry(args).None? || GetObjectEntry(args) == Some(args.oe)
  {
    if !args.sc {
      var s := args.oe;
      if IsObjectEntry(s) {
        var digits: string :| (|digits| == 4 || |digits| == 5) && IsDigitString(digits) && s == "oe" + digits;
        assert Slice(s, 0, 2) == "oe";
        assert Drop(s, 2) == digits;
      }
      if GetObjectEntry(args) == Some(s) {
        var digits := Drop(s, 2);
        assert s == "oe" + digits;
      }
    }
  }

  /** Where the package of an object entry goes: `-o` in special-collections mode, else `<path>/<oe>`. */
  function ObjectEntryPath(path: string, args: Args, objectEntry: string): string {
    if args.sc then args.o else Join(path, objectEntry)
  }

  /** The UUID the package directory is named after: `-u`, or a freshly created one. */
  function RepresentationUuid(args: Args, createdUuid: string): string {
    if args.u == "" then createdUuid else args.u
  }

  /** `make_folder_path`: the package path, `<oe_path>/<uuid>`. */
  function MakeFolderPath(path: string, args: Args, objectEntry: string, createdUuid: string): string {
    Join(ObjectEntryPath(path, args, objectEntry), RepresentationUuid(args, createdUuid))
  }

  /** The identifier-assignment event logged for the package UUID. */
  function UuidEvent(uuid: string): string {
    "EVENT = eventType=Identifier assignement, eventIdentifierType=UUID, value=" + uuid + ", module=uuid.uuid4"
  }

  datatype UuidAssignment = UuidAssignment(uuid: string, event: string)

  /**
    `determine_uuid`: `-u` when the UUID validator accepts it, the package
    directory's name when no `-u` is given; `None` stands for exiting on an
    invalid `-u`.
   */
  function DetermineUuid(args: Args, sipPath: string, isValidUuid4: string -> bool): Option<UuidAssignment> {
    if args.u != "" then
      if isValidUuid4(args.u) then Some(UuidAssignment(args.u, UuidEvent(args.u))) else None
    else
      var uuid := Basename(sipPath);
      Some(UuidAssignment(uuid, UuidEvent(uuid)))
  }

  /**
    `determine_uuid` settles on a UUID exactly when `-u` is absent or
    accepted by the validator: then `-u` itself, or else the name of the
    package directory (the last component of its path), together with the
    identifier-assignment event for that UUID.
   */
  lemma DetermineUuidAccepted(args: Args, sipPath: string, isValidUuid4: string -> bool)
    ensures var r := DetermineUuid(args, sipPath, isValidUuid4);
      && (r.Some? <==> args.u == "" || isValidUuid4(args.u))
      && (r.Some? ==> r.value.event == UuidEvent(r.value.uuid))
      && (r.Some? && args.u != "" ==> r.value.uuid == args.u)
      && (r.Some? && args.u == "" ==>
            '/' !in r.value.uuid && sipPath[|sipPath| - |r.value.uuid|..] == r.value.uuid
            && (|r.value.uuid| < |sipPath| ==> sipPath[|sipPath| - |r.value.uuid| - 1] == '/'))
  {
  }

  /**
    The package path lies directly under its object-entry directory, and the
    UUID `determine_uuid` settles on is the name of the package directory
    whenever that name is a plain file name. The canonical manifest and the
    provenance log derived from the package path are then named after that
    UUID, the log being the one the events are written to.
   */
  lemma PackageUuidNamesEverything(path: string, args: Args, objectEntry: string, createdUuid: string,
                                   isValidUuid4: string -> bool)
    requires IsPlainName(RepresentationUuid(args, createdUuid))
    ensures var sipPath := MakeFolderPath(path, args, objectEntry, createdUuid);
      var uuid := RepresentationUuid(args, createdUuid);
      && (IsDirnameShaped(ObjectEntryPath(path, args, objectEntry))
          ==> Dirname(sipPath) == ObjectEntryPath(path, args, objectEntry))
      && Basename(sipPath) == uuid
      && (args.u == "" || isValidUuid4(args.u)
          <==> DetermineUuid(args, sipPath, isValidUuid4) == Some(UuidAssignment(uuid, UuidEvent(uuid))))
      && Basename(ManifestConsolidation.CanonicalManifestPath(sipPath)) == uuid + "_manifest.md5"
      && LogConsolidation.SipLogPath(sipPath) == Join(sipPath, "logs" + "/" + uuid + "_sip_log.log")
  {
    var sipPath := MakeFolderPath(path, args, objectEntry, createdUuid);
    BasenameOfJoin(ObjectEntryPath(path, args, objectEntry), RepresentationUuid(args, createdUuid));
    if IsDirnameShaped(ObjectEntryPath(path, args, objectEntry)) {
      DirnameOfJoin(ObjectEntryPath(path, args, objectEntry), RepresentationUuid(args, createdUuid));
    }
    ManifestConsolidation.CanonicalManifestIsSibling(sipPath);
  }
}
