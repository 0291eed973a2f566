// MovedFile: a file known to sit either at its original path or at its
// destination, which can be moved back and forth between the two.

module MovedFiles {
  import opened Files
  import opened Events
  import opened Outcomes

  /**
   * detectIsOriginal: the file is at its original path when that exists;
   * when both paths exist the state cannot be told and an exception is raised.
   */
  function DetectIsOriginal(ns: Nodes, original: Path, destination: Path): (r: Result<bool>)
    ensures r.Err? <==> original in ns && destination in ns
    ensures r.Ok? ==> (r.value <==> original in ns)
  {
    if original in ns && destination in ns then Err(RuntimeException("Both " + PathString(original) + " and " + PathString(destination)
                             + " exist. Can't auto detect state for MovedFile object"))
    else Ok(original in ns)
  }

  class MovedFile {
    const fs: FileSystem
    const original: Path
    const destination: Path
    var isOriginal: bool
    var autoSync: bool

    constructor (fs: FileSystem, original: Path, destination: Path, isOriginal: bool)
      ensures this.fs == fs && this.original == original && this.destination == destination
      ensures this.isOriginal == isOriginal && !autoSync
    {
      this.fs := fs;
      this.original := original;
      this.destination := destination;
      this.isOriginal := isOriginal;
      autoSync := false;
    }

    method SetAutosync(v: bool)
      modifies this
      ensures autoSync == v && isOriginal == old(isOriginal)
    {
      autoSync := v;
    }

    /** sync: re-detect the state from the disk; on failure the state is kept. */
    method Sync() returns (r: Result<()>)
      modifies this
      ensures autoSync == old(autoSync)
      ensures var d := DetectIsOriginal(fs.nodes, original, destination);
        r == (if d.Ok? then Ok(()) else Err(d.error)) && isOriginal == (if d.Ok? then d.value else old(isOriginal))
    {
      var d := DetectIsOriginal(fs.nodes, original, destination);
      if d.Err? {
        return Err(d.error);
      }
      isOriginal := d.value;
      return Ok(());
    }

    /** invert0: rename from where the file is believed to be to the other path. */
    method Invert0() returns (ok: bool)
      modifies fs
      ensures var from := if isOriginal then original else destination;
        var to := if isOriginal then destination else original;
        ok == CanRename(old(fs.nodes), fs.pinned, from, to)
        && fs.nodes == AfterRename(old(fs.nodes), fs.pinned, from, to)
    {
      var from := if isOriginal then original else destination;
      var to := if isOriginal then destination else original;
      ok := fs.Rename(from, to);
    }

    /**
     * invert calls itself instead of invert0, so after the optional sync it
     * never returns: every call ends in a stack overflow.
     */
    method Invert() returns (r: Result<bool>)
      modifies this
      ensures r.Err?
      ensures !autoSync ==> r == Err(StackOverflowError) && isOriginal == old(isOriginal)
      ensures autoSync && DetectIsOriginal(fs.nodes, original, destination).Ok? ==>
        r == Err(StackOverflowError) && isOriginal == DetectIsOriginal(fs.nodes, original, destination).value
      ensures autoSync && DetectIsOriginal(fs.nodes, original, destination).Err? ==>
        r == Err(DetectIsOriginal(fs.nodes, original, destination).error) && isOriginal == old(isOriginal)
    {
      if autoSync {
        var s := Sync();
        if s.Err? {
          return Err(s.error);
        }
      }
      return Err(StackOverflowError);
    }

    /** revert: move the file back to its original path; an error if it is believed to be there already. */
    method Revert() returns (r: Result<bool>)
      modifies this, fs
      ensures autoSync == old(autoSync)
      ensures var d := DetectIsOriginal(old(fs.nodes), original, destination);
        old(autoSync) && d.Err? ==> r == Err(d.error) && isOriginal == old(isOriginal) && fs.nodes == old(fs.nodes)
      ensures var d := DetectIsOriginal(old(fs.nodes), original, destination);
        !old(autoSync) || d.Ok? ==>
          var at := if old(autoSync) then d.value else old(isOriginal);
          isOriginal == at
          && (at ==> r == Err(RuntimeException("File already reverted:" + PathString(original))) && fs.nodes == old(fs.nodes))
          && (!at ==> r == Ok(CanRename(old(fs.nodes), fs.pinned, destination, original))
                      && fs.nodes == AfterRename(old(fs.nodes), fs.pinned, destination, original))
    {
      if autoSync {
        var s := Sync();
        if s.Err? {
          return Err(s.error);
        }
      }
      if isOriginal {
        return Err(RuntimeException("File already reverted:" + PathString(original)));
      }
      var ok := Invert0();
      return Ok(ok);
    }

    /** moveAgain: move the file to its destination again; an error if it is believed to be there. */
    method MoveAgain() returns (r: Result<bool>)
      modifies this, fs
      ensures autoSync == old(autoSync)
      ensures var d := DetectIsOriginal(old(fs.nodes), original, destination);
        old(autoSync) && d.Err? ==> r == Err(d.error) && isOriginal == old(isOriginal) && fs.nodes == old(fs.nodes)
      ensures var d := DetectIsOriginal(old(fs.nodes), original, destination);
        !old(autoSync) || d.Ok? ==>
          var at := if old(autoSync) then d.value else old(isOriginal);
          isOriginal == at
          && (!at ==> r == Err(RuntimeException("File already moved:" + PathString(destination))) && fs.nodes == old(fs.nodes))
          && (at ==> r == Ok(CanRename(old(fs.nodes), fs.pinned, original, destination))
                     && fs.nodes == AfterRename(old(fs.nodes), fs.pinned, original, destination))
    {
      if autoSync {
        var s := Sync();
        if s.Err? {
          return Err(s.error);
        }
      }
      if !isOriginal {
        return Err(RuntimeException("File already moved:" + PathString(destination)));
      }
      var ok := Invert0();
      return Ok(ok);
    }

    /** isMoved: true when the file is believed to be at its destination. */
    method IsMoved() returns (r: Result<bool>)
      modifies this
      ensures autoSync == old(autoSync)
      ensures !autoSync ==> r == Ok(!isOriginal) && isOriginal == old(isOriginal)
      ensures autoSync ==> var d := DetectIsOriginal(fs.nodes, original, destination);
        (d.Err? ==> r == Err(d.error) && isOriginal == old(isOriginal))
        && (d.Ok? ==> r == Ok(!d.value) && isOriginal == d.value)
    {
      if autoSync {
        var s := Sync();
        if s.Err? {
          return Err(s.error);
        }
      }
      return Ok(!isOriginal);
    }
  }

  /** The two-argument constructor: the state comes from the disk, and may not be detectable. */
  method NewDetectedMovedFile(fs: FileSystem, original: Path, destination: Path) returns (r: Result<MovedFile>)
    ensures var d := DetectIsOriginal(fs.nodes, original, destination);
      (r.Ok? <==> d.Ok?)
      && (r.Ok? ==> fresh(r.value) && r.value.fs == fs && r.value.original == original
                    && r.value.destination == destination && r.value.isOriginal == d.value && !r.value.autoSync)
  {
    var d := DetectIsOriginal(fs.nodes, original, destination);
    if d.Err? {
      return Err(d.error);
    }
    var m := new MovedFile(fs, original, destination, d.value);
    return Ok(m);
  }

  /** FileMovedEvent.getMovedFile: a MovedFile that knows the file has been moved. */
  method MovedFileOf(fs: FileSystem, e: FileMovedEvent) returns (m: MovedFile)
    ensures fresh(m) && m.fs == fs && m.original == e.original && m.destination == e.destination
    ensures !m.isOriginal && !m.autoSync
  {
    m := new MovedFile(fs, e.original, e.destination, false);
  }
}
