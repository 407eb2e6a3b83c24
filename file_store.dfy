/** The upload folder as the request handler sees it: a map from paths to
    contents, written by `FileStorage.save` and emptied again by the
    best-effort removal loop that `cleanup()` and the handler's `finally`
    block share. */
module FileStore {

  type Bytes = seq<bv8>
  type Path = string
  type FileMap = map<Path, Bytes>

  /** How `FileStorage.save(path)` ends: the whole upload written; refused
      before the file was opened; or interrupted after the file was created,
      with `kept` bytes written. Only the first lets the handler go on. */
  datatype SaveOutcome = Written | Refused | Interrupted(kept: nat)

  /** The folder after one `save`. */
  function AfterSave(files: FileMap, path: Path, data: Bytes, outcome: SaveOutcome): (r: FileMap)
    ensures outcome.Refused? ==> r == files
    ensures !outcome.Refused? ==> r.Keys == files.Keys + {path}
    ensures outcome.Written? ==> r[path] == data
    ensures forall p :: p in files && p != path ==> p in r && r[p] == files[p]
  {
    match outcome
    case Written => files[path := data]
    case Refused => files
    case Interrupted(kept) => files[path := if kept < |data| then data[..kept] else data]
  }

  /** The paths of `paths` whose `os.remove` succeeds. */
  function Removable(paths: seq<Path>, removable: Path -> bool): set<Path> {
    set p | p in paths && removable(p)
  }

  /** The removal loop step by step: for each path in order, if it exists,
      try to remove it and carry on whatever happens. It only deletes, and
      only listed paths. */
  function RemoveEach(files: FileMap, paths: seq<Path>, removable: Path -> bool): (r: FileMap)
    ensures forall p :: p in r ==> p in files && r[p] == files[p]
    ensures forall p :: p in files && p !in paths ==> p in r
    decreases |paths|
  {
    if paths == [] then files
    else
      var before := RemoveEach(files, paths[..|paths| - 1], removable);
      var p := paths[|paths| - 1];
      if p in before && removable(p) then before - {p} else before
  }

  /** The loop removes exactly the removable listed paths: a failed removal
      does not stop it, and a path listed twice is skipped the second time
      by the existence check. */
  lemma {:induction false} RemoveEachIsDifference(files: FileMap, paths: seq<Path>, removable: Path -> bool)
    ensures RemoveEach(files, paths, removable) == files - Removable(paths, removable)
    decreases |paths|
  {
    if paths != [] {
      var init := paths[..|paths| - 1];
      var p := paths[|paths| - 1];
      RemoveEachIsDifference(files, init, removable);
      assert Removable(paths, removable)
             == Removable(init, removable) + (if removable(p) then {p} else {}) by {
        assert paths == init + [p];
      }
    }
  }

  class FileSystem {
    var files: FileMap

    constructor (initial: FileMap)
      ensures files == initial
    {
      files := initial;
    }

    /** `os.path.exists(p)`. */
    method Exists(p: Path) returns (b: bool)
      ensures b <==> p in files
    {
      b := p in files;
    }

    /** `f.save(path)`, whose outcome the environment decides; `ok` is false
      when the call raises. */
    method Save(path: Path, data: Bytes, outcome: SaveOutcome) returns (ok: bool)
      modifies this
      ensures ok <==> outcome.Written?
      ensures files == AfterSave(old(files), path, data, outcome)
    {
      files := AfterSave(files, path, data, outcome);
      ok := outcome.Written?;
    }

    /** `try: os.remove(p) except: pass`. */
    method Remove(p: Path, removable: Path -> bool)
      modifies this
      ensures files == if removable(p) then old(files) - {p} else old(files)
    {
      if removable(p) {
        files := files - {p};
      }
    }

    /** `cleanup(paths)`, and the same loop in the handler's `finally`
        block: afterwards no removable listed path exists, and nothing else
        changed. */
    method Cleanup(paths: seq<Path>, removable: Path -> bool)
      modifies this
      ensures files == old(files) - Removable(paths, removable)
    {
      for i := 0 to |paths|
        invariant files == RemoveEach(old(files), paths[..i], removable)
      {
        assert paths[..i + 1][..i] == paths[..i];
        var p := paths[i];
        var present := Exists(p);
        if present {
          Remove(p, removable);
        }
      }
      assert paths[..|paths|] == paths;
      RemoveEachIsDifference(old(files), paths, removable);
    }
  }
}
