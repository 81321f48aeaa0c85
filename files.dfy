/**
 * An abstract filesystem standing for the java.io.File calls the actions make:
 * exists, isDirectory, canWrite, mkdirs, createNewFile and appending through a FileWriter.
 * Paths are opaque strings; no parent chain and no normalisation is modelled.
 */
module Files {

  /** What a path names: a directory, or a regular file with its contents. */
  datatype Entry = Directory | RegularFile(contents: string)

  /** The result of a java.io call that declares IOException. */
  datatype Io<T> = Done(value: T) | IOException

  /**
   * A snapshot of the filesystem: its entries, the paths the process may write, the
   * paths on which creating fails, and the paths on which writing fails, for reasons
   * outside the model (a full disk or quota, a permission denied by the host, a broken
   * mount). The last two are separate because creating a file and writing to it fail
   * independently: a file can be created when no block is left to write into it.
   */
  datatype Disk = Disk(entries: map<string, Entry>, writable: set<string>,
                       createFaulty: set<string>, writeFaulty: set<string>)
  {
    /** File.exists */
    predicate Exists(p: string)
    {
      p in entries
    }

    /** File.isDirectory */
    predicate IsDirectory(p: string)
    {
      p in entries && entries[p].Directory?
    }

    /** File.canWrite: false for a path that does not exist. */
    predicate CanWrite(p: string)
    {
      p in entries && p in writable
    }

    /** Whether File.mkdirs creates `p` (it returns false and changes nothing otherwise). */
    predicate MkdirsSucceeds(p: string)
    {
      p !in entries && p !in createFaulty
    }

    /** The filesystem after File.mkdirs on `p`. */
    function AfterMkdirs(p: string): Disk
    {
      if MkdirsSucceeds(p) then this.(entries := entries[p := Directory]) else this
    }

    /**
     * Whether File.createNewFile on `p`, whose parent directory is `parent`, throws:
     * only a missing file is created, and only inside an existing, writable directory.
     */
    predicate CreateFails(p: string, parent: string)
    {
      p !in entries && (p in createFaulty || !IsDirectory(parent) || !CanWrite(parent))
    }

    /** The filesystem after a createNewFile that did not throw: a missing file becomes empty. */
    function AfterCreate(p: string): Disk
    {
      if p in entries then this else this.(entries := entries[p := RegularFile("")])
    }

    /** Whether opening the existing path `p` for appending, or writing to it, throws. */
    predicate AppendFails(p: string)
    {
      p in writeFaulty || !(p in entries && entries[p].RegularFile?)
    }

    /** The filesystem after appending `text` to the regular file `p`. */
    function AfterAppend(p: string, text: string): Disk
      requires p in entries && entries[p].RegularFile?
    {
      this.(entries := entries[p := RegularFile(entries[p].contents + text)])
    }
  }

  /** The host filesystem, which the provisioning action changes in place. */
  class FileSystem {
    var entries: map<string, Entry>
    var writable: set<string>
    var createFaulty: set<string>
    var writeFaulty: set<string>

    constructor (entries: map<string, Entry>, writable: set<string>,
                 createFaulty: set<string>, writeFaulty: set<string>)
      ensures State() == Disk(entries, writable, createFaulty, writeFaulty)
    {
      this.entries := entries;
      this.writable := writable;
      this.createFaulty := createFaulty;
      this.writeFaulty := writeFaulty;
    }

    /** The current snapshot. */
    function State(): Disk
      reads this
    {
      Disk(entries, writable, createFaulty, writeFaulty)
    }

    /** File.mkdirs: creates a missing directory; reports whether it did. */
    method Mkdirs(p: string) returns (made: bool)
      modifies this`entries
      ensures made == old(State()).MkdirsSucceeds(p)
      ensures State() == old(State()).AfterMkdirs(p)
    {
      made := p !in entries && p !in createFaulty;
      if made {
        entries := entries[p := Directory];
      }
    }

    /** File.createNewFile: true if it created `p`, false if `p` already existed. */
    method CreateNewFile(p: string, parent: string) returns (r: Io<bool>)
      modifies this`entries
      ensures r == IOException <==> old(State()).CreateFails(p, parent)
      ensures r == Done(true) <==> !old(State()).Exists(p) && !old(State()).CreateFails(p, parent)
      ensures State() == if r.IOException? then old(State()) else old(State()).AfterCreate(p)
    {
      if p in entries {
        r := Done(false);
      } else if p in createFaulty || !(parent in entries && entries[parent].Directory? && parent in writable) {
        r := IOException;
      } else {
        entries := entries[p := RegularFile("")];
        r := Done(true);
      }
    }

    /**
     * `new FileWriter(p, true).write(text)`, closed afterwards, on a path that exists.
     * A FileWriter would also create a missing file and throw on an unwritable one; this
     * method neither creates nor checks writability, because the provisioning action only
     * appends after the file exists and canWrite has held.
     */
    method Append(p: string, text: string) returns (r: Io<()>)
      modifies this`entries
      ensures r == IOException <==> old(State()).AppendFails(p)
      ensures State() == if r.IOException? then old(State()) else old(State()).AfterAppend(p, text)
    {
      if p in writeFaulty || !(p in entries && entries[p].RegularFile?) {
        r := IOException;
      } else {
        entries := entries[p := RegularFile(entries[p].contents + text)];
        r := Done(());
      }
    }
  }
}
