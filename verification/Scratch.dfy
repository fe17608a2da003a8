/**
 The scratch directories under `io/` that every testcase reuses
 (src/icpc_verify/judge.py:158-167, 251-262; src/icpc_verify/validators.py:141-151).
 They start each testcase with whatever the earlier ones, and their containers, left.
 */
module Scratch {

  type Bytes = seq<int>

  type Files = map<string, Bytes>

  datatype Dir = In | Out | Feedback | InteractiveData | ValidatorData

  class ScratchTree {
    /** The directories that exist, with their files. */
    var dirs: map<Dir, Files>
    /** History: a directory has survived its removal. */
    ghost var stuck: bool

    /** Nothing is promised about what is there already. */
    constructor (leftovers: map<Dir, Files>)
      ensures dirs == leftovers && !stuck
    {
      dirs := leftovers;
      stuck := false;
    }

    /** `shutil.rmtree(d, ignore_errors=True)`: any of its files, and then the directory
        itself, may survive. */
    method RemoveTree(d: Dir)
      modifies this
      ensures dirs - {d} == old(dirs) - {d}
      ensures d in dirs ==> d in old(dirs) && dirs[d].Keys <= old(dirs)[d].Keys
      ensures stuck == (old(stuck) || d in dirs)
    {
      var fails: bool, survivors: set<string> := *, *;
      if d in dirs {
        if fails {
          var left := map name | name in dirs[d] && name in survivors :: dirs[d][name];
          dirs := dirs[d := left];
          stuck := true;
        } else {
          dirs := dirs - {d};
        }
      }
    }

    /** `d.mkdir(parents=True)`: raises when the directory exists. */
    method MakeDir(d: Dir) returns (made: bool)
      modifies `dirs
      ensures made <==> d !in old(dirs)
      ensures dirs == if made then old(dirs)[d := map[]] else old(dirs)
    {
      made := d !in dirs;
      if made {
        dirs := dirs[d := map[]];
      }
    }

    /** Both in a row: either the directory is new and empty, or it survived its removal and
        the caller gets an exception. */
    method Refresh(d: Dir) returns (isNew: bool)
      modifies this
      ensures isNew ==> dirs == old(dirs)[d := map[]] && stuck == old(stuck)
      ensures !isNew ==> d in old(dirs) && dirs - {d} == old(dirs) - {d} && stuck
    {
      RemoveTree(d);
      isNew := MakeDir(d);
      if isNew {
        assert dirs == (old(dirs) - {d})[d := map[]];
      }
    }

    /** Write or copy one file. */
    method Put(d: Dir, name: string, content: Bytes)
      requires d in dirs
      modifies `dirs
      ensures dirs == old(dirs)[d := old(dirs)[d][name := content]]
    {
      dirs := dirs[d := dirs[d][name := content]];
    }

    /** What a container leaves in a directory it may write. */
    method Replace(d: Dir, files: Files)
      requires d in dirs
      modifies `dirs
      ensures dirs == old(dirs)[d := files]
    {
      dirs := dirs[d := files];
    }
  }
}
