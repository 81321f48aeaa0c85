/**
 * The minimal provisioning action: after checking its parameters it appends the
 * 'incomingFile' value, plus a newline, to minimalTouchpoint.txt in the p2 home
 * directory, creating the directory and the file when they are missing.
 */
module MinimalProvisioningAction {
  import opened Common
  import opened Files
  import opened Equinox

  /** The parameter carrying the text to append. */
  const IncomingFileParam := "incomingFile"
  /** EclipseTouchpoint.PARM_ARTIFACT_LOCATION */
  const ArtifactLocationParam := "artifact.location"
  /** The configuration property naming the target directory. */
  const P2HomeKey := "com.example.p2home"
  /** The name of the file the action appends to. */
  const MarkerFileName := "minimalTouchpoint.txt"

  /** A parameter value: null, or an object given by its toString(). */
  datatype Value = Null | Object(text: string)

  /** What an action call returns, and the filesystem it leaves behind. */
  datatype Outcome = Outcome(status: Status, disk: Disk)

  /** Both validation checks pass: 'incomingFile' present and non-null, artifact location non-null. */
  predicate ParametersValid(params: map<string, Value>)
  {
    && IncomingFileParam in params && params[IncomingFileParam].Object?
    && ArtifactLocationParam in params && params[ArtifactLocationParam].Object?
  }

  /** The configuration properties of the manipulator parameter, if there is one. */
  function ConfigOf(manipulator: Manipulator?): Option<map<string, string>>
    reads manipulator
  {
    if manipulator == null then None else Some(manipulator.properties)
  }

  /** The target directory: com.example.p2home from the configuration if set, else user.home. */
  function TargetDir(config: Option<map<string, string>>, userHome: Option<string>): Option<string>
  {
    if config.Some? && P2HomeKey in config.value then Some(config.value[P2HomeKey]) else userHome
  }

  /** `new File(dir, "minimalTouchpoint.txt")` */
  function TargetFile(dir: string): string
  {
    dir + "/" + MarkerFileName
  }

  /**
   * What execute returns and what it does to the filesystem, in the order `execute`
   * makes its checks. Its precondition excludes the NullPointerException that
   * `new File(null)` throws when neither the configuration nor user.home gives a directory.
   */
  function Provision(params: map<string, Value>, config: Option<map<string, string>>,
                     userHome: Option<string>, disk: Disk): Outcome
    requires ParametersValid(params) ==> TargetDir(config, userHome).Some?
  {
    if IncomingFileParam !in params then Outcome(Error(MissingIncomingFile), disk)
    else if params[IncomingFileParam].Null? then Outcome(Error(NullIncomingFile), disk)
    else if ArtifactLocationParam !in params || params[ArtifactLocationParam].Null? then
      Outcome(Error(MissingArtifactLocation), disk)
    else
      var dir := TargetDir(config, userHome).value;
      var file := TargetFile(dir);
      var afterDir := if disk.Exists(dir) then disk else disk.AfterMkdirs(dir);
      if afterDir.CreateFails(file, dir) then Outcome(Error(WriteFailed), afterDir)
      else
        var afterFile := afterDir.AfterCreate(file);
        if !afterFile.CanWrite(file) then Outcome(Warning(NoWritePermission), afterFile)
        else if afterFile.AppendFails(file) then Outcome(Error(WriteFailed), afterFile)
        else Outcome(Ok, afterFile.AfterAppend(file, params[IncomingFileParam].text + "\n"))
  }

  /** execute, step by step, over the host filesystem. */
  method Execute(params: map<string, Value>, manipulator: Manipulator?, userHome: Option<string>,
                 fs: FileSystem) returns (s: Status)
    requires ParametersValid(params) ==> TargetDir(ConfigOf(manipulator), userHome).Some?
    modifies fs
    ensures s == Provision(params, ConfigOf(manipulator), userHome, old(fs.State())).status
    ensures fs.State() == Provision(params, ConfigOf(manipulator), userHome, old(fs.State())).disk
    ensures manipulator != null ==> unchanged(manipulator)
  {
    if IncomingFileParam !in params {
      return Error(MissingIncomingFile);
    }
    var incomingFile := params[IncomingFileParam];
    if incomingFile.Null? {
      return Error(NullIncomingFile);
    }
    var artifactLocation := if ArtifactLocationParam in params then params[ArtifactLocationParam] else Null;
    if artifactLocation.Null? {
      return Error(MissingArtifactLocation);
    }

    var existingP2HomeDir: Option<string> := None;
    if manipulator != null {
      var configProps := manipulator.properties;
      if P2HomeKey in configProps {
        existingP2HomeDir := Some(configProps[P2HomeKey]);
      }
    }
    if existingP2HomeDir.None? {
      existingP2HomeDir := userHome;
    }
    var p2HomeDir := existingP2HomeDir.value;
    var minimalFile := TargetFile(p2HomeDir);

    if !fs.State().Exists(p2HomeDir) {
      var made := fs.Mkdirs(p2HomeDir);
    }
    if !fs.State().Exists(minimalFile) {
      var created := fs.CreateNewFile(minimalFile, p2HomeDir);
      if created.IOException? {
        return Error(WriteFailed);
      }
    }
    if !fs.State().CanWrite(minimalFile) {
      return Warning(NoWritePermission);
    }
    var written := fs.Append(minimalFile, incomingFile.text + "\n");
    if written.IOException? {
      return Error(WriteFailed);
    }
    return Ok;
  }

  /** undo: nothing to revert; always OK. */
  method Undo(params: map<string, Value>) returns (s: Status)
    ensures s == Ok
  {
    return Ok;
  }

  // ---------------------------------------------------------------------------
  // Properties of execute

  /** A missing 'incomingFile' is the first thing reported, before any other check. */
  lemma MissingIncomingFileFirst(params: map<string, Value>, config: Option<map<string, string>>,
                                 userHome: Option<string>, disk: Disk)
    requires IncomingFileParam !in params
    ensures Provision(params, config, userHome, disk) == Outcome(Error(MissingIncomingFile), disk)
  {
  }

  /** A null 'incomingFile' is an error, whatever the artifact location. */
  lemma NullIncomingFileRejected(params: map<string, Value>, config: Option<map<string, string>>,
                                 userHome: Option<string>, disk: Disk)
    requires IncomingFileParam in params && params[IncomingFileParam] == Null
    ensures Provision(params, config, userHome, disk) == Outcome(Error(NullIncomingFile), disk)
  {
  }

  /** A missing or null artifact location is reported once 'incomingFile' has passed. */
  lemma MissingArtifactLocationRejected(params: map<string, Value>, config: Option<map<string, string>>,
                                        userHome: Option<string>, disk: Disk)
    requires IncomingFileParam in params && params[IncomingFileParam].Object?
    requires ArtifactLocationParam !in params || params[ArtifactLocationParam] == Null
    ensures Provision(params, config, userHome, disk) == Outcome(Error(MissingArtifactLocation), disk)
  {
  }

  /** The filesystem changes only when the parameters are valid. */
  lemma InvalidParametersTouchNothing(params: map<string, Value>, config: Option<map<string, string>>,
                                      userHome: Option<string>, disk: Disk)
    requires !ParametersValid(params)
    ensures Provision(params, config, userHome, disk).disk == disk
    ensures Provision(params, config, userHome, disk).status.Error?
  {
  }

  /**
   * The target directory: a configured com.example.p2home acts exactly as user.home would,
   * and user.home is then ignored; without it (or without a manipulator) user.home is used.
   */
  lemma TargetDirChoice(params: map<string, Value>, config: Option<map<string, string>>,
                        userHome: Option<string>, disk: Disk)
    requires ParametersValid(params) ==> TargetDir(config, userHome).Some?
    ensures config.Some? && P2HomeKey in config.value ==>
      Provision(params, config, userHome, disk) == Provision(params, None, Some(config.value[P2HomeKey]), disk)
    ensures config.None? || P2HomeKey !in config.value ==>
      Provision(params, config, userHome, disk) == Provision(params, None, userHome, disk)
  {
  }

  /** execute touches no path but the target directory and the target file. */
  lemma OnlyTargetTouched(params: map<string, Value>, config: Option<map<string, string>>,
                          userHome: Option<string>, disk: Disk, p: string)
    requires ParametersValid(params) ==> TargetDir(config, userHome).Some?
    requires ParametersValid(params) ==>
      p != TargetDir(config, userHome).value && p != TargetFile(TargetDir(config, userHome).value)
    ensures var after := Provision(params, config, userHome, disk).disk;
      (p in after.entries <==> p in disk.entries)
      && (p in disk.entries ==> after.entries[p] == disk.entries[p])
      && after.writable == disk.writable
      && after.createFaulty == disk.createFaulty && after.writeFaulty == disk.writeFaulty
  {
  }

  /**
   * A missing directory is created and a missing file is created empty before the
   * write-permission check: even when that check fails, the new empty file stays behind
   * in a directory that now exists.
   */
  lemma CreatedBeforePermissionCheck(params: map<string, Value>, config: Option<map<string, string>>,
                                     userHome: Option<string>, disk: Disk)
    requires ParametersValid(params) && TargetDir(config, userHome).Some?
    requires Provision(params, config, userHome, disk).status == Warning(NoWritePermission)
    ensures var dir := TargetDir(config, userHome).value;
      var file := TargetFile(dir);
      var after := Provision(params, config, userHome, disk).disk;
      && after.Exists(file)
      && (!disk.Exists(file) ==> after.IsDirectory(dir) && after.entries[file] == RegularFile(""))
  {
    var dir := TargetDir(config, userHome).value;
    assert TargetFile(dir) != dir;
  }

  /** An unwritable target file gives WARNING and leaves its contents as they were. */
  lemma UnwritableFileWarns(params: map<string, Value>, config: Option<map<string, string>>,
                            userHome: Option<string>, disk: Disk)
    requires ParametersValid(params) && TargetDir(config, userHome).Some?
    requires var file := TargetFile(TargetDir(config, userHome).value);
      disk.Exists(file) && !disk.CanWrite(file)
    ensures var file := TargetFile(TargetDir(config, userHome).value);
      var o := Provision(params, config, userHome, disk);
      o.status == Warning(NoWritePermission) && o.disk.entries[file] == disk.entries[file]
  {
    var dir := TargetDir(config, userHome).value;
    assert TargetFile(dir) != dir;
  }

  /** OK exactly when the file ends up holding its old contents, the value and a newline. */
  lemma SuccessAppendsLine(params: map<string, Value>, config: Option<map<string, string>>,
                           userHome: Option<string>, disk: Disk)
    requires ParametersValid(params) && TargetDir(config, userHome).Some?
    ensures var file := TargetFile(TargetDir(config, userHome).value);
      var o := Provision(params, config, userHome, disk);
      var before := if disk.Exists(file) && disk.entries[file].RegularFile? then disk.entries[file].contents else "";
      o.status == Ok ==> o.disk.entries[file] == RegularFile(before + params[IncomingFileParam].text + "\n")
    ensures var file := TargetFile(TargetDir(config, userHome).value);
      var o := Provision(params, config, userHome, disk);
      o.status == Ok <==>
        && file !in disk.writeFaulty && file in disk.writable
        && (disk.Exists(file) ==> disk.entries[file].RegularFile?)
        && (!disk.Exists(file) ==>
              && file !in disk.createFaulty
              && TargetDir(config, userHome).value in disk.writable
              && (disk.IsDirectory(TargetDir(config, userHome).value)
                  || disk.MkdirsSucceeds(TargetDir(config, userHome).value)))
  {
    var dir := TargetDir(config, userHome).value;
    assert TargetFile(dir) != dir;
  }

  /**
   * The non-OK outcomes after validation, from the filesystem before the call: WARNING when
   * the file can be had without an exception but is not writable; ERROR when creating the
   * missing file throws (also in a directory that is not writable), or when the file is
   * writable but appending throws, including to a file that was created just before.
   */
  lemma FailureOutcomes(params: map<string, Value>, config: Option<map<string, string>>,
                        userHome: Option<string>, disk: Disk)
    requires ParametersValid(params) && TargetDir(config, userHome).Some?
    ensures var dir := TargetDir(config, userHome).value;
      var file := TargetFile(dir);
      var createThrows := !disk.Exists(file) &&
        (file in disk.createFaulty || dir !in disk.writable
         || !(disk.IsDirectory(dir) || disk.MkdirsSucceeds(dir)));
      var o := Provision(params, config, userHome, disk);
      && (o.status == Warning(NoWritePermission) <==> !createThrows && file !in disk.writable)
      && (o.status == Error(WriteFailed) <==>
            createThrows
            || (file in disk.writable && (file in disk.writeFaulty
                  || (disk.Exists(file) && disk.entries[file].Directory?))))
      && (o.status.Ok? || o.status == Warning(NoWritePermission) || o.status == Error(WriteFailed))
  {
    var dir := TargetDir(config, userHome).value;
    assert TargetFile(dir) != dir;
  }

  /**
   * An append that throws leaves the target file as createNewFile left it: a file that
   * was missing stays behind, empty, in a directory that now exists.
   */
  lemma FailedAppendLeavesFile(params: map<string, Value>, config: Option<map<string, string>>,
                               userHome: Option<string>, disk: Disk)
    requires ParametersValid(params) && TargetDir(config, userHome).Some?
    requires var file := TargetFile(TargetDir(config, userHome).value);
      file in disk.writable && file in disk.writeFaulty
    ensures var dir := TargetDir(config, userHome).value;
      var file := TargetFile(dir);
      var o := Provision(params, config, userHome, disk);
      o.status == Error(WriteFailed)
      && (o.disk.Exists(file) ==> o.disk.entries[file] == if disk.Exists(file) then disk.entries[file] else RegularFile(""))
      && (!disk.Exists(file) && file !in disk.createFaulty && dir in disk.writable
          && (disk.IsDirectory(dir) || disk.MkdirsSucceeds(dir)) ==>
            o.disk.IsDirectory(dir) && o.disk.entries[file] == RegularFile(""))
  {
    var dir := TargetDir(config, userHome).value;
    assert TargetFile(dir) != dir;
  }
}
