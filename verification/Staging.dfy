/** The destination file system and the staged file of internal/receiver/pendingfile.go. */
module Staging {
  import opened Bytes

  /** Which operations of the file system succeed in a run. */
  datatype Faults = Faults(createOk: bool, closeOk: bool, renameOk: bool)

  class FileSystem {
    var files: map<string, seq<byte>>

    constructor (files: map<string, seq<byte>>)
      ensures this.files == files
    {
      this.files := files;
    }
  }

  /** A temporary file that takes the target's place only on CloseAtomicallyReplace. */
  class PendingFile {
    const fs: FileSystem
    const target: string
    const tmpName: string
    var open: bool

    /** Staged, with the given content; nothing else differs from `before`. */
    ghost predicate Staged(before: map<string, seq<byte>>, content: seq<byte>)
      reads this, fs
    {
      open && tmpName !in before && tmpName != target && fs.files == before[tmpName := content]
    }

    constructor (fs: FileSystem, target: string, tmpName: string)
      requires tmpName !in fs.files && tmpName != target
      modifies fs
      ensures this.fs == fs && this.target == target && this.tmpName == tmpName
      ensures Staged(old(fs.files), [])
    {
      this.fs := fs;
      this.target := target;
      this.tmpName := tmpName;
      open := true;
      new;
      fs.files := fs.files[tmpName := []];
    }

    method Write(p: seq<byte>, ghost before: map<string, seq<byte>>, ghost content: seq<byte>)
      requires Staged(before, content)
      modifies fs
      ensures Staged(before, content + p)
    {
      fs.files := fs.files[tmpName := fs.files[tmpName] + p];
    }

    method Remove(ghost before: map<string, seq<byte>>)
      requires tmpName !in before && fs.files - {tmpName} == before
      modifies fs
      ensures fs.files == before
    {
      fs.files := map n | n in fs.files && n != tmpName :: fs.files[n];
    }

    /** Deferred by the receiver: removes the temporary file unless it was renamed. */
    method Cleanup(ghost before: map<string, seq<byte>>)
      requires open ==> tmpName !in before && fs.files - {tmpName} == before
      modifies fs
      ensures open ==> fs.files == before
      ensures !open ==> fs.files == old(fs.files)
    {
      if open {
        Remove(before);
      }
    }

    method CloseAtomicallyReplace(io: Faults, ghost before: map<string, seq<byte>>, ghost content: seq<byte>)
      returns (r: Result<()>)
      requires Staged(before, content)
      modifies this, fs
      ensures r.Ok? <==> io.closeOk && io.renameOk
      ensures r.Ok? ==> !open && fs.files == before[target := content]
      ensures !io.closeOk ==> r == Err(CloseFailed) && open && fs.files == before
      ensures io.closeOk && !io.renameOk ==> r == Err(RenameFailed) && !open && fs.files == before[tmpName := content]
    {
      if !io.closeOk {
        Remove(before);
        return Err(CloseFailed);
      }
      if io.renameOk {
        var staged := fs.files[tmpName];
        Remove(before);
        fs.files := fs.files[target := staged];
        r := Ok(());
      } else {
        r := Err(RenameFailed);
      }
      open := false;
    }
  }
}
