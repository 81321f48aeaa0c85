# p2 touchpoint actions, modelled in Dafny

This project models two Eclipse p2 touchpoint actions of `com.example.demo.touchpoint`.
The p2 engine calls these plugin classes while it installs or uninstalls.

- **`SetConfigValue`** (`setp2home`) works out a p2 home directory through an ordered fallback chain (`getP2HomeDir`).
  `execute` stores that directory under `some.property` in the Manipulator's configuration properties, saves config.ini, and mirrors the value into the system properties.
  `undo` removes the key again.
- **`MinimalProvisioningAction`** checks its parameters (`incomingFile`, `artifact.location`).
  It then picks a target directory: the configuration's `com.example.p2home`, else `user.home`.
  It creates the directory and `minimalTouchpoint.txt` if they are missing, checks write permission, and appends the `incomingFile` value followed by a newline.
  Its `undo` does nothing.

Modules, one per file:

- `Common` (common.dfy): `Option` for Java null, and `Status`: `Ok`, `Warning(cause)` or `Error(cause)`. The cause records which branch fired.
- `Strings` (strings.dfy): ASCII `toLowerCase`, `equalsIgnoreCase`, `contains`, and `trim().isEmpty()`.
- `Files` (files.dfy): the abstract filesystem.
  - `Disk` is a map from path to `Directory | RegularFile(contents)`, plus the set of writable paths and two sets of paths where I/O fails: one for creating (`mkdirs`, `createNewFile`) and one for writing (the `FileWriter` append). Creating and writing fail independently, so a file can be created and the write to it still fail.
  - The `FileSystem` class holds that state and changes it in place through `Mkdirs`, `CreateNewFile` and `Append`.
- `Equinox` (equinox.dfy): the host objects.
  - `Manipulator` holds the in-memory properties, the last-saved config.ini contents, and whether `save(true)` succeeds.
  - `SystemProperties` is the target of `System.setProperty`.
- `SetConfigValue` (set_config_value.dfy):
  - The ambient inputs are collected in a `Host` value: the override property `some.other.property`, the OS name, the environment as `(key, value)` pairs in iteration order, `user.home`, and `getAbsolutePath` as the function `abs`.
  - `P2HomeDir` is the pure specification of the chain. `GetP2HomeDir` is the loop-based method and is proved equal to it.
  - `Execute` and `Undo` act on a `Manipulator`.
- `MinimalProvisioningAction` (minimal_provisioning_action.dfy): `Provision` is the pure specification of `execute` over a `Disk`. `Execute` runs over a `FileSystem` and is proved equal to it.

The rules of the chain are numbered as in `P2HomeDir`'s doc comment:
1. the override property;
2. the all-users directory;
3. `user.home + "/var"`, outside Windows only;
4. the environment fallback.

The `APPDATA`/`HOME` loop at `SetConfigValue.java:167-178` has no `break`, so the last matching key in iteration order wins (`EnvFallbackTakesLastMatch`).
The `ALLUSERSPROFILE` loop at `SetConfigValue.java:116-123` breaks on the first match (`AllUsersOnWindows`).
A failed save leaves the key set in memory, so a later `execute` returns OK without saving (`ExecuteAfterFailedSave`).
`undo` never clears the system property that `execute` mirrored, so it stays set after the rollback (`ExecuteThenUndo`).

Two quirks are kept on purpose:
- In the override branch, the `isDirectory()` result is computed and then ignored (`OverrideIgnoresFilesystem`).
- A non-null but blank override still ends the chain and gives `""` (`OverrideWins`).

## Model

| member | source | states |
|---|---|---|
| `Strings.ContainsIffOccurs` | com.example.demo.touchpoint/src/com/example/demo/touchpoint/SetConfigValue.java:107 | the left-to-right `contains` scan succeeds exactly when the substring occurs at some index |
| `Strings.BlankIffAllControlOrSpace` | com.example.demo.touchpoint/src/com/example/demo/touchpoint/SetConfigValue.java:181 | `trim().isEmpty()` holds exactly when every character is at or below U+0020 |
| `Files.FileSystem.Mkdirs` | com.example.demo.touchpoint/src/com/example/demo/touchpoint/MinimalProvisioningAction.java:105-108 | a missing directory outside `createFaulty` is created; otherwise nothing changes and false is returned |
| `Files.FileSystem.CreateNewFile` | com.example.demo.touchpoint/src/com/example/demo/touchpoint/MinimalProvisioningAction.java:110-113 | an existing path is left alone; a missing file becomes empty; throwing IOException (path in `createFaulty`, or parent not an existing, writable directory) changes nothing |
| `Files.FileSystem.Append` | com.example.demo.touchpoint/src/com/example/demo/touchpoint/MinimalProvisioningAction.java:124-126 | a regular file outside `writeFaulty` gets the text appended; otherwise IOException and nothing changes |
| `Equinox.Manipulator.Save` | com.example.demo.touchpoint/src/com/example/demo/touchpoint/SetConfigValue.java:48-58 | save either persists the in-memory properties or throws and leaves config.ini as it was |
| `Equinox.SystemProperties.SetProperty` | com.example.demo.touchpoint/src/com/example/demo/touchpoint/SetConfigValue.java:51 | sets exactly one system property |
| `SetConfigValue.FirstMatchIndex` | com.example.demo.touchpoint/src/com/example/demo/touchpoint/SetConfigValue.java:116-123 | the index where the breaking scan stops: no earlier key matches `ALLUSERSPROFILE` ignoring case, and the key there does |
| `SetConfigValue.LastMatchIndex` | com.example.demo.touchpoint/src/com/example/demo/touchpoint/SetConfigValue.java:167-178 | the last index whose key matches ignoring case; no later key matches |
| `SetConfigValue.FirstMatchAt` | com.example.demo.touchpoint/src/com/example/demo/touchpoint/SetConfigValue.java:116-123 | the breaking scan yields the value of the first matching key |
| `SetConfigValue.LastMatchAt` | com.example.demo.touchpoint/src/com/example/demo/touchpoint/SetConfigValue.java:167-178 | the non-breaking scan yields the value of the last matching key |
| `SetConfigValue.NoMatch` | com.example.demo.touchpoint/src/com/example/demo/touchpoint/SetConfigValue.java:116-178 | with no matching key, neither scan finds a value |
| `SetConfigValue.GetP2HomeDir` | com.example.demo.touchpoint/src/com/example/demo/touchpoint/SetConfigValue.java:85-187 | the if-chain with its two environment loops computes exactly `P2HomeDir`, the pure fallback chain |
| `SetConfigValue.IsWindowsIff` | com.example.demo.touchpoint/src/com/example/demo/touchpoint/SetConfigValue.java:107 | the OS counts as Windows exactly when "win" occurs in its lower-cased name |
| `SetConfigValue.NoWWithoutWin` | com.example.demo.touchpoint/src/com/example/demo/touchpoint/SetConfigValue.java:107 | a string with no lower-case 'w' does not contain "win" |
| `SetConfigValue.NoLetterWNotWindows` | com.example.demo.touchpoint/src/com/example/demo/touchpoint/SetConfigValue.java:107 | an OS name with no 'w' or 'W' is never taken for Windows |
| `SetConfigValue.KnownOperatingSystems` | com.example.demo.touchpoint/src/com/example/demo/touchpoint/SetConfigValue.java:107 | example: win32 and WIN32 are Windows; linux and macosx are not |
| `SetConfigValue.OverrideWins` | com.example.demo.touchpoint/src/com/example/demo/touchpoint/SetConfigValue.java:93-105 | a set override gives its absolute path, or `""` when it is blank; the later rules are skipped |
| `SetConfigValue.OverrideIgnoresFilesystem` | com.example.demo.touchpoint/src/com/example/demo/touchpoint/SetConfigValue.java:94-98 | with an override, the result is the same on every filesystem, so the isDirectory test decides nothing |
| `SetConfigValue.AllUsersAcceptedIff` | com.example.demo.touchpoint/src/com/example/demo/touchpoint/SetConfigValue.java:114-141 | rule 2 accepts exactly an existing, writable candidate: the first `ALLUSERSPROFILE` entry on Windows, `/var` elsewhere |
| `SetConfigValue.AllUsersOnWindows` | com.example.demo.touchpoint/src/com/example/demo/touchpoint/SetConfigValue.java:114-141 | on Windows with no override, an existing, writable first `ALLUSERSPROFILE` value is absolutised (twice, as written) and returned |
| `SetConfigValue.AllUsersOnWindowsExactly` | com.example.demo.touchpoint/src/com/example/demo/touchpoint/SetConfigValue.java:130-135 | an absolute, non-blank, existing, writable `ALLUSERSPROFILE` value is returned exactly |
| `SetConfigValue.AllUsersOnUnix` | com.example.demo.touchpoint/src/com/example/demo/touchpoint/SetConfigValue.java:124-136 | off Windows with no override, an existing, writable `/var` is the answer |
| `SetConfigValue.FilesystemOnlyThroughAllUsers` | com.example.demo.touchpoint/src/com/example/demo/touchpoint/SetConfigValue.java:129-141 | the filesystem affects the result only through rule 2's exists-and-writable test |
| `SetConfigValue.UserHomeOnUnix` | com.example.demo.touchpoint/src/com/example/demo/touchpoint/SetConfigValue.java:144-154 | off Windows, with `/var` unusable and `user.home` set, the result is `user.home + "/var"`: no existence check, and the environment is not consulted |
| `SetConfigValue.EnvFallbackTakesLastMatch` | com.example.demo.touchpoint/src/com/example/demo/touchpoint/SetConfigValue.java:159-178 | otherwise the last `APPDATA` (Windows) or `HOME` (elsewhere, plus `/var`) entry decides |
| `SetConfigValue.NothingResolves` | com.example.demo.touchpoint/src/com/example/demo/touchpoint/SetConfigValue.java:159-186 | when no rule yields a value, the result is `""` |
| `SetConfigValue.ResultShape` | com.example.demo.touchpoint/src/com/example/demo/touchpoint/SetConfigValue.java:181-186 | the result is `""` or the absolute path of a non-blank value |
| `SetConfigValue.ScansIgnoreKeyCase` | com.example.demo.touchpoint/src/com/example/demo/touchpoint/SetConfigValue.java:118 | both scans give the same answer on environments whose keys differ only in letter case |
| `SetConfigValue.P2HomeDirIgnoresKeyCase` | com.example.demo.touchpoint/src/com/example/demo/touchpoint/SetConfigValue.java:116-178 | changing the case of environment keys never changes the resolved directory |
| `SetConfigValue.AllUsersKeyIgnoresCase` | com.example.demo.touchpoint/src/com/example/demo/touchpoint/SetConfigValue.java:118 | example: `allusersprofile` and `AllUsersProfile` both match `ALLUSERSPROFILE` |
| `SetConfigValue.Execute` | com.example.demo.touchpoint/src/com/example/demo/touchpoint/SetConfigValue.java:34-61 | an existing key gives OK with no change; otherwise exactly that key is set to `P2HomeDir` (even `""`). A successful save persists it and mirrors it into the system properties; a failed save gives ERROR, keeps the key in memory and mirrors nothing |
| `SetConfigValue.Undo` | com.example.demo.touchpoint/src/com/example/demo/touchpoint/SetConfigValue.java:194-223 | an absent key gives OK with no change; otherwise only that key is removed, and a failed save gives ERROR |
| `SetConfigValue.ExecuteAfterFailedSave` | com.example.demo.touchpoint/src/com/example/demo/touchpoint/SetConfigValue.java:39-58 | after a failed save the key stays set in memory, so a second execute returns OK; config.ini and the system properties never receive the key |
| `SetConfigValue.ExecuteThenUndo` | com.example.demo.touchpoint/src/com/example/demo/touchpoint/SetConfigValue.java:39-222 | from a config without the key and with saves that succeed, execute, execute again, undo and undo again all return OK and give back the original properties; the mirrored system property stays set, because undo never clears it |
| `MinimalProvisioningAction.Execute` | com.example.demo.touchpoint/src/com/example/demo/touchpoint/MinimalProvisioningAction.java:31-139 | the early-return checks, the directory choice and the create-then-append steps give exactly `Provision`'s status and filesystem; the manipulator is not changed |
| `MinimalProvisioningAction.Undo` | com.example.demo.touchpoint/src/com/example/demo/touchpoint/MinimalProvisioningAction.java:141-148 | always OK, with no state change |
| `MinimalProvisioningAction.MissingIncomingFileFirst` | com.example.demo.touchpoint/src/com/example/demo/touchpoint/MinimalProvisioningAction.java:38-41 | no `incomingFile` key gives ERROR before any other check, and the filesystem is untouched |
| `MinimalProvisioningAction.NullIncomingFileRejected` | com.example.demo.touchpoint/src/com/example/demo/touchpoint/MinimalProvisioningAction.java:43-47 | a null `incomingFile` gives ERROR, and the filesystem is untouched |
| `MinimalProvisioningAction.MissingArtifactLocationRejected` | com.example.demo.touchpoint/src/com/example/demo/touchpoint/MinimalProvisioningAction.java:54-59 | once `incomingFile` passes, a missing or null `artifact.location` gives ERROR, and the filesystem is untouched |
| `MinimalProvisioningAction.InvalidParametersTouchNothing` | com.example.demo.touchpoint/src/com/example/demo/touchpoint/MinimalProvisioningAction.java:38-59 | invalid parameters always give ERROR and leave the filesystem as it was |
| `MinimalProvisioningAction.TargetDirChoice` | com.example.demo.touchpoint/src/com/example/demo/touchpoint/MinimalProvisioningAction.java:79-92 | a configured `com.example.p2home` gives exactly the outcome `execute` would have with that value as `user.home` and no manipulator; without it, the outcome is the one for `user.home` alone |
| `MinimalProvisioningAction.OnlyTargetTouched` | com.example.demo.touchpoint/src/com/example/demo/touchpoint/MinimalProvisioningAction.java:94-126 | in the model's flat filesystem, no path other than the target directory and `<dir>/minimalTouchpoint.txt` changes |
| `MinimalProvisioningAction.CreatedBeforePermissionCheck` | com.example.demo.touchpoint/src/com/example/demo/touchpoint/MinimalProvisioningAction.java:103-120 | on a WARNING the file exists; a file that was missing was created empty, inside a directory that now exists |
| `MinimalProvisioningAction.UnwritableFileWarns` | com.example.demo.touchpoint/src/com/example/demo/touchpoint/MinimalProvisioningAction.java:115-120 | an existing, unwritable file gives WARNING, and its contents are unchanged |
| `MinimalProvisioningAction.FailureOutcomes` | com.example.demo.touchpoint/src/com/example/demo/touchpoint/MinimalProvisioningAction.java:103-132 | after validation: WARNING exactly when the file can be created or already exists but is not writable; ERROR exactly when creating the missing file throws (including in an unwritable directory), or the file is writable and appending throws, also to a file created just before; there is no other non-OK outcome |
| `MinimalProvisioningAction.SuccessAppendsLine` | com.example.demo.touchpoint/src/com/example/demo/touchpoint/MinimalProvisioningAction.java:122-138 | OK exactly when nothing throws and the file is writable; the file then holds its old contents, the value and `"\n"` |
| `MinimalProvisioningAction.FailedAppendLeavesFile` | com.example.demo.touchpoint/src/com/example/demo/touchpoint/MinimalProvisioningAction.java:110-131 | a writable target whose append throws gives ERROR and keeps the file as `createNewFile` left it: a file that was missing stays behind, empty, in a directory that now exists |

## Left out

- Logging (`java.util.logging`, including the configuration-property logging loop) and the status message texts (`NLS.bind`): they only observe. The model keeps the severity and which branch fired.
- Ambient state: `Platform.getOS()`, `System.getenv()`, `System.getProperty` and `getAbsolutePath` are inputs (the `Host` value and `userHome`), not process state. Only `System.setProperty` is state, in `SystemProperties`.
- `getAbsolutePath` is an arbitrary function `abs` of the path. Resolution against `user.dir` is not modelled. No property of `abs` is assumed, except that `AllUsersOnWindowsExactly` takes `abs(v) == v` for its one path as a hypothesis.
- The environment is a sequence of pairs. Java's environment map also has unique keys; the model does not need that fact.
- `equalsIgnoreCase` and `toLowerCase` fold ASCII letters only. Full Unicode case mapping and locale rules are not modelled.
- Persistence: `save(true)` either writes the in-memory properties or fails, chosen by `Manipulator.saveSucceeds`. The backup file and the config.ini format are host-side.
- A null manipulator in `SetConfigValue` throws a NullPointerException. The model's non-null `Manipulator` parameters exclude that case.
- Failed casts of parameter values are not modelled. Parameter values are either null or an object given by its `toString()`.
- `MinimalProvisioningAction.Execute`: a null `user.home` with no configured `com.example.p2home` makes `new File(null)` throw a NullPointerException. That case is a precondition, not a modelled outcome.
- java.io.File semantics:
  - Paths are opaque strings and the target file is `dir + "/minimalTouchpoint.txt"`. Java's separator normalisation (trailing slashes, an empty parent) is not modelled.
  - Writability is a fixed set, so a newly created file is writable only if that set says so.
  - File contents are characters. The `FileWriter`'s encoding of the text into bytes in the platform default charset is not modelled.
- `Files.FileSystem.Mkdirs`: creates only the named directory. Missing ancestors are not modelled, because paths are opaque.
- `MinimalProvisioningAction.OnlyTargetTouched`: its frame does not cover the missing ancestors of the target directory that `File.mkdirs` also creates, because the model's filesystem is flat.
- Concurrency: each action runs to completion on one thread. Other processes writing config.ini are not modelled.
