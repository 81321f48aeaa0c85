/**
 * The `setp2home` touchpoint action: it resolves a p2 home directory through an ordered
 * fallback chain and stores it under "some.property" in the configuration properties,
 * undoing that by removing the key again.
 */
module SetConfigValue {
  import opened Common
  import opened Strings
  import opened Files
  import opened Equinox

  /** The configuration key the action sets and removes. */
  const PropertyKey := "some.property"
  /** The environment variable naming the all-users directory on Windows. */
  const AllUsersKey := "ALLUSERSPROFILE"
  /** The all-users directory elsewhere. */
  const UnixAllUsersDir := "/var"
  /** Appended to a home directory outside Windows. */
  const VarSuffix := "/var"

  /**
   * Everything ambient that the resolution reads, lifted into one value:
   * the override system property "some.other.property", the OS name (Platform.getOS()),
   * the environment (System.getenv(), as its entries in iteration order),
   * the system property user.home, and File.getAbsolutePath as a function of the path.
   */
  datatype Host = Host(
    overrideDir: Option<string>,
    os: string,
    env: seq<(string, string)>,
    userHome: Option<string>,
    abs: string -> string)

  /** `Platform.getOS().toLowerCase().contains("win")` */
  predicate IsWindows(os: string)
  {
    Contains(Lower(os), "win")
  }

  /** The environment variable holding a user's home: APPDATA on Windows, HOME elsewhere. */
  function HomeKey(windows: bool): string
  {
    if windows then "APPDATA" else "HOME"
  }

  /** Index of the first entry whose key equals `key` ignoring case, or |env| if none does. */
  function FirstMatchIndex(env: seq<(string, string)>, key: string): (i: nat)
    ensures i <= |env|
    ensures forall j :: 0 <= j < i ==> !EqualsIgnoreCase(env[j].0, key)
    ensures i < |env| ==> EqualsIgnoreCase(env[i].0, key)
    decreases |env|
  {
    if env == [] then 0
    else if EqualsIgnoreCase(env[0].0, key) then 0
    else 1 + FirstMatchIndex(env[1..], key)
  }

  /** Index of the last entry whose key equals `key` ignoring case, or -1 if none does. */
  function LastMatchIndex(env: seq<(string, string)>, key: string): (i: int)
    ensures -1 <= i < |env|
    ensures forall j :: i < j < |env| ==> !EqualsIgnoreCase(env[j].0, key)
    ensures 0 <= i ==> EqualsIgnoreCase(env[i].0, key)
    decreases |env|
  {
    if env == [] then -1
    else if EqualsIgnoreCase(env[|env| - 1].0, key) then |env| - 1
    else LastMatchIndex(env[..|env| - 1], key)
  }

  /** The value a scan that stops at the first matching key finds. */
  function FirstMatch(env: seq<(string, string)>, key: string): Option<string>
  {
    var i := FirstMatchIndex(env, key);
    if i < |env| then Some(env[i].1) else None
  }

  /** The value a scan over every key, keeping the latest match, ends with. */
  function LastMatch(env: seq<(string, string)>, key: string): Option<string>
  {
    var i := LastMatchIndex(env, key);
    if 0 <= i then Some(env[i].1) else None
  }

  /** Rule 2's candidate: %ALLUSERSPROFILE% on Windows (null if unset), /var elsewhere. */
  function AllUsersCandidate(h: Host): Option<string>
  {
    if IsWindows(h.os) then FirstMatch(h.env, AllUsersKey) else Some(UnixAllUsersDir)
  }

  /** Rule 2 takes its candidate only when it exists and is writable. */
  predicate AllUsersAccepted(h: Host, disk: Disk)
  {
    var c := AllUsersCandidate(h);
    c.Some? && disk.Exists(c.value) && disk.CanWrite(c.value)
  }

  /** Rule 4 on the environment seen so far: the latest home variable, with /var outside Windows. */
  function EnvCandidate(env: seq<(string, string)>, windows: bool): Option<string>
  {
    match LastMatch(env, HomeKey(windows))
    case None => None
    case Some(v) => Some(if windows then v else v + VarSuffix)
  }

  /** The value of `retVal` once the four rules have run (None for null). */
  function Chosen(h: Host, disk: Disk): Option<string>
  {
    if h.overrideDir.Some? then h.overrideDir
    else if AllUsersAccepted(h, disk) then Some(h.abs(AllUsersCandidate(h).value))
    else if !IsWindows(h.os) && h.userHome.Some? then Some(h.userHome.value + VarSuffix)
    else EnvCandidate(h.env, IsWindows(h.os))
  }

  /** The final step: a blank value gives "", any other its absolute path. */
  function Normalised(h: Host, v: string): string
  {
    if IsBlank(v) then "" else h.abs(v)
  }

  /**
   * What getP2HomeDir returns. The rules, tried in order until `retVal` is set:
   * rule 1, the override property used verbatim; rule 2, the all-users directory
   * (%ALLUSERSPROFILE% on Windows, /var elsewhere) if it exists and is writable;
   * rule 3, outside Windows only, user.home + "/var"; rule 4, the last APPDATA
   * (Windows) or HOME (elsewhere, plus /var) environment entry. A value that is
   * blank gives "", any other its absolute path.
   */
  function P2HomeDir(h: Host, disk: Disk): string
  {
    match Chosen(h, disk)
    case None => ""
    case Some(v) => Normalised(h, v)
  }

  /** getP2HomeDir, step by step: the if-chain and the two scans of the environment. */
  method GetP2HomeDir(h: Host, disk: Disk) returns (r: string)
    ensures r == P2HomeDir(h, disk)
  {
    var retVal: Option<string> := None;
    if h.overrideDir.Some? {
      // The directory test is made and its answer dropped: the override is used regardless.
      var isDirectory := disk.IsDirectory(h.overrideDir.value);
      retVal := h.overrideDir;
    }

    var isWindows := IsWindows(h.os);

    if retVal.None? {
      var allUserDir: Option<string> := None;
      if isWindows {
        for i := 0 to |h.env|
          invariant allUserDir.None?
          invariant forall j :: 0 <= j < i ==> !EqualsIgnoreCase(h.env[j].0, AllUsersKey)
        {
          if EqualsIgnoreCase(h.env[i].0, AllUsersKey) {
            assert FirstMatchIndex(h.env, AllUsersKey) == i;
            allUserDir := Some(h.env[i].1);
            break;
          }
        }
      } else {
        allUserDir := Some(UnixAllUsersDir);
      }
      assert allUserDir == AllUsersCandidate(h);

      if allUserDir.Some? {
        if disk.Exists(allUserDir.value) {
          if disk.CanWrite(allUserDir.value) {
            retVal := Some(h.abs(allUserDir.value));
          }
        }
      }
    }

    if retVal.None? && !isWindows {
      if h.userHome.Some? {
        retVal := Some(h.userHome.value + VarSuffix);
      }
    }

    if retVal.None? {
      var envKey := HomeKey(isWindows);
      for i := 0 to |h.env|
        invariant retVal == EnvCandidate(h.env[..i], isWindows)
      {
        assert h.env[..i + 1][..i] == h.env[..i];
        if EqualsIgnoreCase(h.env[i].0, envKey) {
          retVal := Some(if isWindows then h.env[i].1 else h.env[i].1 + VarSuffix);
        }
      }
      assert h.env[..|h.env|] == h.env;
    }

    if retVal.Some? && !IsBlank(retVal.value) {
      return h.abs(retVal.value);
    }
    return "";
  }

  /**
   * execute: leaves an existing key alone; otherwise stores the resolved directory
   * (even "") under the key, saves, and mirrors it into the system properties only
   * when the save succeeds. A failed save leaves the key set in memory.
   */
  method Execute(m: Manipulator, sys: SystemProperties, h: Host, fs: FileSystem) returns (s: Status)
    modifies m`properties, m`persisted, sys
    ensures PropertyKey in old(m.properties) ==>
      s == Ok && m.properties == old(m.properties) && m.persisted == old(m.persisted)
      && sys.values == old(sys.values)
    ensures PropertyKey !in old(m.properties) ==>
      m.properties == old(m.properties)[PropertyKey := P2HomeDir(h, fs.State())]
    ensures PropertyKey !in old(m.properties) && m.saveSucceeds ==>
      s == Ok && m.persisted == m.properties
      && sys.values == old(sys.values)[PropertyKey := P2HomeDir(h, fs.State())]
    ensures PropertyKey !in old(m.properties) && !m.saveSucceeds ==>
      s == Error(SavingFailed) && m.persisted == old(m.persisted) && sys.values == old(sys.values)
  {
    if PropertyKey in m.properties {
      return Ok;
    }
    var p2HomeDir := GetP2HomeDir(h, fs.State());
    m.properties := m.properties[PropertyKey := p2HomeDir];
    var saved := m.Save();
    if !saved {
      return Error(SavingFailed);
    }
    sys.SetProperty(PropertyKey, p2HomeDir);
    return Ok;
  }

  /** undo: removes the key if present and saves; a failed save is an error. */
  method Undo(m: Manipulator) returns (s: Status)
    modifies m`properties, m`persisted
    ensures PropertyKey !in old(m.properties) ==>
      s == Ok && m.properties == old(m.properties) && m.persisted == old(m.persisted)
    ensures PropertyKey in old(m.properties) ==> m.properties == old(m.properties) - {PropertyKey}
    ensures PropertyKey in old(m.properties) && m.saveSucceeds ==> s == Ok && m.persisted == m.properties
    ensures PropertyKey in old(m.properties) && !m.saveSucceeds ==>
      s == Error(RemovingFailed) && m.persisted == old(m.persisted)
  {
    if PropertyKey !in m.properties {
      return Ok;
    }
    m.properties := m.properties - {PropertyKey};
    var saved := m.Save();
    if !saved {
      return Error(RemovingFailed);
    }
    return Ok;
  }

  /**
   * A failed save still leaves the key set in memory, so a second execute returns OK
   * without saving: config.ini never receives the key.
   */
  method ExecuteAfterFailedSave(m: Manipulator, sys: SystemProperties, h: Host, fs: FileSystem)
    returns (first: Status, again: Status)
    requires PropertyKey !in m.properties && !m.saveSucceeds
    modifies m`properties, m`persisted, sys
    ensures first == Error(SavingFailed) && again == Ok
    ensures m.properties == old(m.properties)[PropertyKey := P2HomeDir(h, fs.State())]
    ensures m.persisted == old(m.persisted) && sys.values == old(sys.values)
  {
    first := Execute(m, sys, h, fs);
    again := Execute(m, sys, h, fs);
  }

  /**
   * The install-then-rollback sequence of the p2 engine: with a key that was absent and
   * saves that succeed, execute then undo gives back the original properties, and both
   * succeed; a second execute or undo in a row changes nothing.
   */
  method ExecuteThenUndo(m: Manipulator, sys: SystemProperties, h: Host, fs: FileSystem)
    returns (first: Status, again: Status, undone: Status, undoneAgain: Status)
    requires PropertyKey !in m.properties && m.saveSucceeds
    modifies m`properties, m`persisted, sys
    ensures first == Ok && again == Ok && undone == Ok && undoneAgain == Ok
    ensures m.properties == old(m.properties) && m.persisted == old(m.properties)
    ensures sys.values == old(sys.values)[PropertyKey := P2HomeDir(h, fs.State())]
  {
    first := Execute(m, sys, h, fs);
    ghost var afterFirst := m.properties;
    again := Execute(m, sys, h, fs);
    assert m.properties == afterFirst;
    undone := Undo(m);
    assert m.properties == old(m.properties);
    undoneAgain := Undo(m);
  }

  // ---------------------------------------------------------------------------
  // Properties of the resolution

  /** The first-match scan returns the value of the first key that matches. */
  lemma FirstMatchAt(env: seq<(string, string)>, key: string, i: int)
    requires 0 <= i < |env| && EqualsIgnoreCase(env[i].0, key)
    requires forall j :: 0 <= j < i ==> !EqualsIgnoreCase(env[j].0, key)
    ensures FirstMatch(env, key) == Some(env[i].1)
  {
  }

  /** The last-match scan returns the value of the last key that matches. */
  lemma LastMatchAt(env: seq<(string, string)>, key: string, i: int)
    requires 0 <= i < |env| && EqualsIgnoreCase(env[i].0, key)
    requires forall j :: i < j < |env| ==> !EqualsIgnoreCase(env[j].0, key)
    ensures LastMatch(env, key) == Some(env[i].1)
  {
  }

  /** With no matching key, both scans find nothing. */
  lemma NoMatch(env: seq<(string, string)>, key: string)
    requires forall j :: 0 <= j < |env| ==> !EqualsIgnoreCase(env[j].0, key)
    ensures FirstMatch(env, key) == None && LastMatch(env, key) == None
  {
  }

  /** The Windows test: "win" occurs somewhere in the lower-cased OS name. */
  lemma IsWindowsIff(os: string)
    ensures IsWindows(os) <==> exists i :: OccursAt(Lower(os), "win", i)
  {
    ContainsIffOccurs(Lower(os), "win");
  }

  /** A string with no lower-case w does not contain "win". */
  lemma {:induction false} NoWWithoutWin(s: string)
    requires forall i :: 0 <= i < |s| ==> s[i] != 'w'
    ensures !Contains(s, "win")
    decreases |s|
  {
    if |s| >= 3 {
      assert s[..3][0] == s[0] != 'w';
      NoWWithoutWin(s[1..]);
    }
  }

  /** An OS name without the letter w, in either case, is never taken for Windows. */
  lemma NoLetterWNotWindows(os: string)
    requires forall i :: 0 <= i < |os| ==> os[i] != 'w' && os[i] != 'W'
    ensures !IsWindows(os)
  {
    assert forall i :: 0 <= i < |Lower(os)| ==> Lower(os)[i] == LowerChar(os[i]);
    NoWWithoutWin(Lower(os));
  }

  /** The OS names Eclipse reports: win32 is Windows, linux and macosx are not. */
  lemma KnownOperatingSystems()
    ensures IsWindows("win32") && IsWindows("WIN32")
    ensures !IsWindows("linux") && !IsWindows("macosx")
  {
    assert Lower("WIN32") == "win32";
    assert Lower("win32")[..3] == "win";
    assert Lower("linux") == "linux";
    NoWWithoutWin("linux");
    assert Lower("macosx") == "macosx";
    NoWWithoutWin("macosx");
  }

  /** Rule 1: a set override decides the result, whatever else the host holds. */
  lemma OverrideWins(h: Host, disk: Disk, dir: string)
    requires h.overrideDir == Some(dir)
    ensures !IsBlank(dir) ==> P2HomeDir(h, disk) == h.abs(dir)
    ensures IsBlank(dir) ==> P2HomeDir(h, disk) == ""
  {
  }

  /** Rule 1 does not look at the filesystem: in particular the directory test is ignored. */
  lemma OverrideIgnoresFilesystem(h: Host, disk: Disk, other: Disk)
    requires h.overrideDir.Some?
    ensures P2HomeDir(h, disk) == P2HomeDir(h, other)
  {
  }

  /** Rule 2's acceptance, unfolded: the first ALLUSERSPROFILE entry on Windows, /var elsewhere. */
  lemma AllUsersAcceptedIff(h: Host, disk: Disk)
    ensures IsWindows(h.os) ==>
      (AllUsersAccepted(h, disk) <==>
        exists i :: 0 <= i < |h.env| && EqualsIgnoreCase(h.env[i].0, AllUsersKey)
          && (forall j :: 0 <= j < i ==> !EqualsIgnoreCase(h.env[j].0, AllUsersKey))
          && disk.Exists(h.env[i].1) && disk.CanWrite(h.env[i].1))
    ensures !IsWindows(h.os) ==>
      (AllUsersAccepted(h, disk) <==> disk.Exists(UnixAllUsersDir) && disk.CanWrite(UnixAllUsersDir))
  {
    if IsWindows(h.os) {
      var f := FirstMatchIndex(h.env, AllUsersKey);
      if exists i :: 0 <= i < |h.env| && EqualsIgnoreCase(h.env[i].0, AllUsersKey)
          && (forall j :: 0 <= j < i ==> !EqualsIgnoreCase(h.env[j].0, AllUsersKey))
          && disk.Exists(h.env[i].1) && disk.CanWrite(h.env[i].1) {
        var i :| 0 <= i < |h.env| && EqualsIgnoreCase(h.env[i].0, AllUsersKey)
          && (forall j :: 0 <= j < i ==> !EqualsIgnoreCase(h.env[j].0, AllUsersKey))
          && disk.Exists(h.env[i].1) && disk.CanWrite(h.env[i].1);
        FirstMatchAt(h.env, AllUsersKey, i);
      }
      if AllUsersAccepted(h, disk) {
        assert f < |h.env|;
      }
    }
  }

  /** Rule 2 on Windows: an existing, writable %ALLUSERSPROFILE% is taken, absolutised twice. */
  lemma AllUsersOnWindows(h: Host, disk: Disk, i: int)
    requires h.overrideDir.None? && IsWindows(h.os)
    requires 0 <= i < |h.env| && EqualsIgnoreCase(h.env[i].0, AllUsersKey)
    requires forall j :: 0 <= j < i ==> !EqualsIgnoreCase(h.env[j].0, AllUsersKey)
    requires disk.Exists(h.env[i].1) && disk.CanWrite(h.env[i].1)
    ensures P2HomeDir(h, disk) == Normalised(h, h.abs(h.env[i].1))
  {
    FirstMatchAt(h.env, AllUsersKey, i);
  }

  /** Rule 2 on Windows for an absolute, non-blank %ALLUSERSPROFILE%: exactly that path. */
  lemma AllUsersOnWindowsExactly(h: Host, disk: Disk, i: int)
    requires h.overrideDir.None? && IsWindows(h.os)
    requires 0 <= i < |h.env| && EqualsIgnoreCase(h.env[i].0, AllUsersKey)
    requires forall j :: 0 <= j < i ==> !EqualsIgnoreCase(h.env[j].0, AllUsersKey)
    requires disk.Exists(h.env[i].1) && disk.CanWrite(h.env[i].1)
    requires h.abs(h.env[i].1) == h.env[i].1 && !IsBlank(h.env[i].1)
    ensures P2HomeDir(h, disk) == h.env[i].1
  {
    AllUsersOnWindows(h, disk, i);
  }

  /** Rule 2 elsewhere: an existing, writable /var is taken. */
  lemma AllUsersOnUnix(h: Host, disk: Disk)
    requires h.overrideDir.None? && !IsWindows(h.os)
    requires disk.Exists(UnixAllUsersDir) && disk.CanWrite(UnixAllUsersDir)
    ensures P2HomeDir(h, disk) == Normalised(h, h.abs(UnixAllUsersDir))
  {
  }

  /** The filesystem matters only through rule 2's existence-and-writability test. */
  lemma FilesystemOnlyThroughAllUsers(h: Host, disk: Disk, other: Disk)
    requires AllUsersAccepted(h, disk) == AllUsersAccepted(h, other)
    ensures P2HomeDir(h, disk) == P2HomeDir(h, other)
  {
  }

  /** Rule 3: outside Windows, with /var unusable, user.home + "/var", without any check. */
  lemma UserHomeOnUnix(h: Host, disk: Disk, home: string)
    requires h.overrideDir.None? && !IsWindows(h.os)
    requires !(disk.Exists(UnixAllUsersDir) && disk.CanWrite(UnixAllUsersDir))
    requires h.userHome == Some(home)
    ensures P2HomeDir(h, disk) == Normalised(h, home + "/var")
  {
  }

  /** Rule 4: otherwise the LAST matching APPDATA (Windows) or HOME (elsewhere, plus /var). */
  lemma EnvFallbackTakesLastMatch(h: Host, disk: Disk, i: int)
    requires h.overrideDir.None? && !AllUsersAccepted(h, disk)
    requires IsWindows(h.os) || h.userHome.None?
    requires 0 <= i < |h.env| && EqualsIgnoreCase(h.env[i].0, HomeKey(IsWindows(h.os)))
    requires forall j :: i < j < |h.env| ==> !EqualsIgnoreCase(h.env[j].0, HomeKey(IsWindows(h.os)))
    ensures IsWindows(h.os) ==> P2HomeDir(h, disk) == Normalised(h, h.env[i].1)
    ensures !IsWindows(h.os) ==> P2HomeDir(h, disk) == Normalised(h, h.env[i].1 + "/var")
  {
    LastMatchAt(h.env, HomeKey(IsWindows(h.os)), i);
  }

  /** When no rule yields a value, the result is "". */
  lemma NothingResolves(h: Host, disk: Disk)
    requires h.overrideDir.None? && !AllUsersAccepted(h, disk)
    requires IsWindows(h.os) || h.userHome.None?
    requires forall j :: 0 <= j < |h.env| ==> !EqualsIgnoreCase(h.env[j].0, HomeKey(IsWindows(h.os)))
    ensures P2HomeDir(h, disk) == ""
  {
    NoMatch(h.env, HomeKey(IsWindows(h.os)));
  }

  /** The result is "" or the absolute path of a non-blank candidate. */
  lemma ResultShape(h: Host, disk: Disk)
    ensures P2HomeDir(h, disk) == "" || exists c :: !IsBlank(c) && P2HomeDir(h, disk) == h.abs(c)
  {
    var chosen := Chosen(h, disk);
    if chosen.Some? && !IsBlank(chosen.value) {
      assert P2HomeDir(h, disk) == h.abs(chosen.value);
    }
  }

  /** Two environments that differ only in the case of their keys resolve alike. */
  lemma {:induction false} ScansIgnoreKeyCase(env: seq<(string, string)>, other: seq<(string, string)>, key: string)
    requires |env| == |other|
    requires forall j :: 0 <= j < |env| ==> Lower(env[j].0) == Lower(other[j].0) && env[j].1 == other[j].1
    ensures FirstMatch(env, key) == FirstMatch(other, key)
    ensures LastMatch(env, key) == LastMatch(other, key)
    decreases |env|
  {
    if env != [] {
      ScansIgnoreKeyCase(env[1..], other[1..], key);
      ScansIgnoreKeyCase(env[..|env| - 1], other[..|other| - 1], key);
    }
  }

  /** Renaming environment keys to other letter cases does not change the resolution. */
  lemma P2HomeDirIgnoresKeyCase(h: Host, disk: Disk, other: seq<(string, string)>)
    requires |h.env| == |other|
    requires forall j :: 0 <= j < |other| ==> Lower(h.env[j].0) == Lower(other[j].0) && h.env[j].1 == other[j].1
    ensures P2HomeDir(h, disk) == P2HomeDir(h.(env := other), disk)
  {
    var renamed := h.(env := other);
    ScansIgnoreKeyCase(h.env, other, AllUsersKey);
    ScansIgnoreKeyCase(h.env, other, HomeKey(IsWindows(h.os)));
    assert AllUsersCandidate(renamed) == AllUsersCandidate(h);
    assert EnvCandidate(other, IsWindows(h.os)) == EnvCandidate(h.env, IsWindows(h.os));
    assert Chosen(renamed, disk) == Chosen(h, disk);
  }

  /** "allusersprofile" names the same variable as "ALLUSERSPROFILE". */
  lemma AllUsersKeyIgnoresCase()
    ensures EqualsIgnoreCase("allusersprofile", AllUsersKey)
    ensures EqualsIgnoreCase("AllUsersProfile", AllUsersKey)
  {
    assert Lower(AllUsersKey) == "allusersprofile";
    assert Lower("allusersprofile") == "allusersprofile";
    assert Lower("AllUsersProfile") == "allusersprofile";
  }
}
