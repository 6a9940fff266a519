/**
 * The part of the host file system the core touches, as state: the files
 * that can be read, which of them hold valid UTF-8 text, and the
 * directories that exist. Whether a
 * `create_dir_all` or a `write` succeeds is decided outside the model and
 * passed in.
 */
module Fs {
  import opened Common

  class FileSystem {
    /** Every readable file, by path, with its bytes (see the note on strings in `Common`). */
    var files: map<string, string>
    /** The readable files whose contents are valid UTF-8. */
    var utf8: set<string>
    /** Every directory known to exist. */
    var dirs: set<string>

    constructor (files: map<string, string>, utf8: set<string>, dirs: set<string>)
      ensures this.files == files && this.utf8 == utf8 && this.dirs == dirs
    {
      this.files := files;
      this.utf8 := utf8;
      this.dirs := dirs;
    }

    /** `std::fs::read`: the contents of any readable file, or nothing. */
    method Read(path: string) returns (contents: Option<string>)
      ensures contents.Some? <==> path in files
      ensures contents.Some? ==> contents.value == files[path]
    {
      contents := if path in files then Some(files[path]) else None;
    }

    /** `std::fs::read_to_string`: as `Read`, but a file that is not valid UTF-8 is an error too. */
    method ReadToString(path: string) returns (contents: Option<string>)
      ensures contents.Some? <==> path in files && path in utf8
      ensures contents.Some? ==> contents.value == files[path]
    {
      contents := if path in files && path in utf8 then Some(files[path]) else None;
    }

    /** `std::fs::create_dir_all`, succeeding exactly when `succeeds`. */
    method CreateDirAll(dir: string, succeeds: bool) returns (ok: bool)
      modifies this
      ensures ok == succeeds
      ensures files == old(files) && utf8 == old(utf8)
      ensures dirs == if ok then old(dirs) + {dir} else old(dirs)
    {
      ok := succeeds;
      if ok {
        dirs := dirs + {dir};
      }
    }

    /**
     * `std::fs::write` of a Rust string: replaces the whole file with UTF-8
     * text, succeeding exactly when `succeeds`.
     */
    method Write(path: string, contents: string, succeeds: bool) returns (ok: bool)
      modifies this
      ensures ok == succeeds
      ensures dirs == old(dirs)
      ensures files == if ok then old(files)[path := contents] else old(files)
      ensures utf8 == if ok then old(utf8) + {path} else old(utf8)
    {
      ok := succeeds;
      if ok {
        files := files[path := contents];
        utf8 := utf8 + {path};
      }
    }
  }
}
