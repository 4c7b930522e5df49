/** The temp-file registry both command handlers keep: a list `temp_files` of the
    paths a request created, drained in a `finally` block that removes every
    registered path that is non-empty and still exists. The filesystem is the
    set of paths that exist. */
module TempFiles {

  /** The paths the cleanup loop deletes when they exist: the registered ones
      that are truthy (an empty path stands for a falsy `None` or `""`). */
  function Removable(registered: seq<string>): (r: set<string>)
    ensures forall p :: p in r <==> p in registered && p != ""
  {
    set p | p in registered && p != ""
  }

  /** The filesystem after draining `registered` one path at a time, in order. */
  function Drain(fs: set<string>, registered: seq<string>): set<string> {
    if registered == [] then fs
    else
      var before := Drain(fs, registered[..|registered| - 1]);
      var f := registered[|registered| - 1];
      if f != "" && f in before then before - {f} else before
  }

  /** Draining removes exactly the removable paths, whatever the order and
      however often a path was registered. */
  lemma {:induction false} DrainRemovesRegistered(fs: set<string>, registered: seq<string>)
    ensures Drain(fs, registered) == fs - Removable(registered)
  {
    if registered != [] {
      var init := registered[..|registered| - 1];
      DrainRemovesRegistered(fs, init);
      assert registered == init + [registered[|registered| - 1]];
      assert Removable(registered) == Removable(init) + Removable([registered[|registered| - 1]]);
    }
  }

  /** After cleanup no registered path exists, and every other path is as it was. */
  lemma CleanupOutcome(fs: set<string>, registered: seq<string>)
    ensures forall p :: p in registered && p != "" ==> p !in Drain(fs, registered)
    ensures forall p :: p !in registered ==> (p in Drain(fs, registered) <==> p in fs)
  {
    DrainRemovesRegistered(fs, registered);
  }

  /** One request's registry together with the filesystem it works on. */
  class TempFileSet {
    /** The paths that exist on the filesystem. */
    var existing: set<string>
    /** The `temp_files` list, in registration order. */
    var registered: seq<string>

    constructor (fs: set<string>)
      ensures existing == fs && registered == []
    {
      existing := fs;
      registered := [];
    }

    /** `temp_files.append(path)`. */
    method Register(path: string)
      modifies this
      ensures registered == old(registered) + [path]
      ensures existing == old(existing)
    {
      registered := registered + [path];
    }

    /** A collaborator (download, image save, transcoder) writes a file at `path`. */
    method Write(path: string)
      modifies this
      ensures existing == old(existing) + {path}
      ensures registered == old(registered)
    {
      existing := existing + {path};
    }

    /** `os.remove(path)`, which raises unless the path exists. */
    method Remove(path: string)
      requires path in existing
      modifies this
      ensures existing == old(existing) - {path}
      ensures registered == old(registered)
    {
      existing := existing - {path};
    }

    /** The `finally` loop: `for f in temp_files: if f and os.path.exists(f): os.remove(f)`.
        The existence check is what keeps `Remove` from ever failing. */
    method Cleanup()
      modifies this
      ensures registered == old(registered)
      ensures existing == Drain(old(existing), registered)
      ensures existing == old(existing) - Removable(registered)
    {
      var i := 0;
      while i < |registered|
        invariant 0 <= i <= |registered|
        invariant registered == old(registered)
        invariant existing == Drain(old(existing), registered[..i])
      {
        var f := registered[i];
        assert registered[..i + 1][..i] == registered[..i];
        if f != "" && f in existing {
          Remove(f);
        }
        i := i + 1;
      }
      assert registered[..i] == registered;
      DrainRemovesRegistered(old(existing), registered);
    }
  }
}
