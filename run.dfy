/**
 * The runner registry and code staging of backend/src/run.rs. A runner
 * says, for one language, which command runs a source file and which
 * extension the file needs. Running code writes it to a scratch file named
 * after a hash of (language, code) and starts the runner's command on it.
 */
module Run {
  import opened Common
  import opened Text
  import opened Numbers
  import opened Fs

  /** The `Runner` record read from the configuration. */
  datatype Runner = Runner(language: string, command: seq<string>, extension: string)

  /** The placeholder in a command template that stands for the staged file. */
  const FilePlaceholder: string := "__FILE__"

  /**
   * A process whose start is attempted: program, arguments in order,
   * working directory. The attempt itself may fail (see `exitStatus`).
   */
  datatype Invocation = Invocation(program: string, args: seq<string>, workingDir: string)

  /**
   * What the outside world decides during one run: the temporary directory,
   * the `DefaultHasher` digest of (language, code), whether creating the
   * scratch directory and writing the file succeed, and the exit status the
   * started process reports (`None` when it cannot be started or awaited).
   */
  datatype Environment = Environment(
    tempDir: string,
    hash: (string, string) -> uint64,
    mkdirSucceeds: bool,
    writeSucceeds: bool,
    exitStatus: Option<bool>)

  /** The registry after `install_runners(runners)`: each runner in turn is stored under its language. */
  function Installed(registry: map<string, Runner>, runners: seq<Runner>): (r: map<string, Runner>)
    ensures r.Keys == registry.Keys + set j | 0 <= j < |runners| :: runners[j].language
    decreases |runners|
  {
    if |runners| == 0 then registry
    else
      var last := runners[|runners| - 1];
      Installed(registry, runners[..|runners| - 1])[last.language := last]
  }

  /** The last runner in the list for a language is the one the registry keeps. */
  lemma {:induction false} InstallLastWins(registry: map<string, Runner>, runners: seq<Runner>, k: nat)
    requires k < |runners|
    requires forall j :: k < j < |runners| ==> runners[j].language != runners[k].language
    ensures runners[k].language in Installed(registry, runners)
    ensures Installed(registry, runners)[runners[k].language] == runners[k]
    decreases |runners|
  {
    if k < |runners| - 1 {
      InstallLastWins(registry, runners[..|runners| - 1], k);
    }
  }

  /** Languages the list does not mention keep their entry, or their absence. */
  lemma {:induction false} InstallKeepsOthers(registry: map<string, Runner>, runners: seq<Runner>, language: string)
    requires forall j :: 0 <= j < |runners| ==> runners[j].language != language
    ensures language in Installed(registry, runners) <==> language in registry
    ensures language in registry ==> Installed(registry, runners)[language] == registry[language]
    decreases |runners|
  {
    if |runners| > 0 {
      InstallKeepsOthers(registry, runners[..|runners| - 1], language);
    }
  }

  /** The directory staged files go to. */
  function ScratchDir(tempDir: string): string {
    tempDir + "/spellbook"
  }

  /** The staged file: `<scratch dir>/<hash in decimal>.<extension>`. */
  function StagedPath(tempDir: string, hash: uint64, extension: string): (p: string)
    ensures StartsWith(p, ScratchDir(tempDir) + "/")
    ensures EndsWith(p, "." + extension)
  {
    ScratchDir(tempDir) + "/" + Decimal(hash as nat) + "." + extension
  }

  /**
   * Two runs share a staged file exactly when their hashes agree (for one
   * extension): identical (language, code) pairs always do, and different
   * pairs do only on a hash collision.
   */
  lemma StagedPathIff(tempDir: string, h1: uint64, h2: uint64, extension: string)
    ensures StagedPath(tempDir, h1, extension) == StagedPath(tempDir, h2, extension) <==> h1 == h2
  {
    var p1, p2 := StagedPath(tempDir, h1, extension), StagedPath(tempDir, h2, extension);
    var d1, d2 := Decimal(h1 as nat), Decimal(h2 as nat);
    var lead := |ScratchDir(tempDir)| + 1;
    if p1 == p2 {
      assert |d1| == |d2|;
      assert p1[lead..lead + |d1|] == d1;
      assert p2[lead..lead + |d2|] == d2;
      DecimalInjective(h1, h2);
    }
  }

  /**
   * `runner.command` with every leftmost non-overlapping `__FILE__` replaced
   * by the staged path.
   */
  function Argv(command: seq<string>, staged: string): (argv: seq<string>)
    ensures |argv| == |command|
  {
    seq(|command|, i requires 0 <= i < |command| => ReplaceAll(command[i], FilePlaceholder, staged))
  }

  /**
   * Each argument is its template cut at every leftmost non-overlapping
   * `__FILE__` and glued back
   * with the staged path; a template without `__FILE__` is passed unchanged.
   */
  lemma ArgvMeaning(command: seq<string>, staged: string, i: nat)
    requires i < |command|
    ensures var pieces := Split(command[i], FilePlaceholder);
      && Argv(command, staged)[i] == Join(pieces, staged)
      && Join(pieces, FilePlaceholder) == command[i]
      && forall k :: 0 <= k < |pieces| ==> !Occurs(pieces[k], FilePlaceholder)
    ensures !Occurs(command[i], FilePlaceholder) ==> Argv(command, staged)[i] == command[i]
  {
    ReplaceAllMeaning(command[i], FilePlaceholder, staged);
    if !Occurs(command[i], FilePlaceholder) {
      ReplaceAbsent(command[i], FilePlaceholder, staged);
    }
  }

  /** The process started for a command template: `argv[0]` with `argv[1..]` as its arguments. */
  function Launch(command: seq<string>, staged: string, workingDir: string): (inv: Invocation)
    requires |command| > 0
    ensures [inv.program] + inv.args == Argv(command, staged)
    ensures inv.workingDir == workingDir
  {
    var argv := Argv(command, staged);
    Invocation(argv[0], argv[1..], workingDir)
  }

  /** The process-wide `RUNNERS` registry. */
  class RunnerRegistry {
    var runners: map<string, Runner>

    /**
     * Every runner is stored under its own language, and its command has a
     * program to start (an empty command would make `run_code` index out of
     * bounds).
     */
    ghost predicate Valid()
      reads this
    {
      forall language :: language in runners ==>
        runners[language].language == language && |runners[language].command| > 0
    }

    constructor ()
      ensures Valid() && runners == map[]
    {
      runners := map[];
    }

    /** `install_runners`: stores each runner under its language, later ones overwriting earlier ones. */
    method InstallRunners(list: seq<Runner>)
      requires Valid()
      requires forall j :: 0 <= j < |list| ==> |list[j].command| > 0
      modifies this
      ensures Valid()
      ensures runners == Installed(old(runners), list)
    {
      var i := 0;
      while i < |list|
        invariant 0 <= i <= |list|
        invariant Valid()
        invariant runners == Installed(old(runners), list[..i])
      {
        assert list[..i + 1][..i] == list[..i];
        runners := runners[list[i].language := list[i]];
        i := i + 1;
      }
      assert list[..i] == list;
    }

    /**
     * `run_code(cd, language, code)`: looks the runner up, creates the
     * scratch directory, writes `code` verbatim to the staged file and runs
     * the runner's command there with `cd` as working directory. The answer
     * is true only if every step worked and the process exited successfully.
     */
    method RunCode(cd: string, language: string, code: string, fs: FileSystem, env: Environment)
      returns (ok: bool, launched: Option<Invocation>)
      requires Valid()
      modifies fs
      ensures language !in runners ==>
        !ok && launched == None && fs.files == old(fs.files) && fs.utf8 == old(fs.utf8) && fs.dirs == old(fs.dirs)
      ensures language in runners ==>
        var runner := runners[language];
        var staged := StagedPath(env.tempDir, env.hash(language, code), runner.extension);
        && fs.dirs == (if env.mkdirSucceeds then old(fs.dirs) + {ScratchDir(env.tempDir)} else old(fs.dirs))
        && fs.files == (if env.mkdirSucceeds && env.writeSucceeds then old(fs.files)[staged := code] else old(fs.files))
        && fs.utf8 == (if env.mkdirSucceeds && env.writeSucceeds then old(fs.utf8) + {staged} else old(fs.utf8))
        && launched == (if env.mkdirSucceeds && env.writeSucceeds then Some(Launch(runner.command, staged, cd)) else None)
      ensures ok <==> launched.Some? && env.exitStatus == Some(true)
    {
      if language !in runners {
        return false, None;
      }
      var runner := runners[language];
      var hash := env.hash(language, code);
      var dir := ScratchDir(env.tempDir);
      var made := fs.CreateDirAll(dir, env.mkdirSucceeds);
      if !made {
        return false, None;
      }
      var path := StagedPath(env.tempDir, hash, runner.extension);
      var written := fs.Write(path, code, env.writeSucceeds);
      if !written {
        return false, None;
      }
      var argv := Argv(runner.command, path);
      launched := Some(Invocation(argv[0], argv[1..], cd));
      ok := match env.exitStatus
        case Some(success) => success
        case None => false;
    }
  }
}
