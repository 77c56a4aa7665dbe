/**
 The life of a container inside one judged submission: taken from the pool or started, then given back
 exactly once, whichever way compilation and judging go.
 */
module Executor {
  import opened Wrappers
  import opened Verdict

  /** A container and the directory mounted into it; an empty identifier is no container. */
  datatype Container = Container(id: string, dir: string)

  /** What Docker, the pool and the compiler answer during one compilation. */
  datatype World = World(
    warm: Option<Container>, freshDir: string, dockerRun: DockerRun,
    writeFails: bool, compiler: CompilerRun, mainJs: bool)

  /** No slot: waiting for the semaphore timed out, which raises an error nobody in execute handles. */
  datatype DockerRun = NoDockerSlot | DockerFailed | DockerStarted(id: string)

  datatype CompilerRun = NoCompilerSlot | CompilerTimedOut | CompilerExited(code: int)

  datatype Compiled = Ready | NotCompiled | NoSandbox | Crashed

  /** What execute returns, or the exception it lets through. */
  datatype Reply = CompilationError | EnvironmentError | Judged(verdict: Verdict) | Raised

  /** The container this submission gets hold of. */
  function Taken(w: World): Option<Container> {
    match w.warm
    case Some(c) => Some(c)
    case None => if w.dockerRun.DockerStarted? then Some(Container(w.dockerRun.id, w.freshDir)) else None
  }

  function CompileResult(w: World): Compiled {
    if Taken(w).None? then (if w.dockerRun.NoDockerSlot? then Crashed else NoSandbox)
    else if w.writeFails || w.compiler.NoCompilerSlot? then Crashed
    else if w.compiler == CompilerExited(0) && w.mainJs then Ready
    else NotCompiled
  }

  class TypeScriptExecutor {
    var containerId: string
    var tempDir: string
    /** What was handed to the pool's release, in order. */
    var released: seq<Container>

    constructor ()
      ensures containerId == "" && tempDir == "" && released == []
    {
      containerId, tempDir, released := "", "", [];
    }

    /** Clears the fields before it releases, so a second call has nothing to give back. */
    method Cleanup()
      modifies this
      ensures containerId == ""
      ensures released == old(released) + (if old(containerId) != "" then [Container(old(containerId), old(tempDir))] else [])
      ensures tempDir == if old(containerId) != "" then "" else old(tempDir)
    {
      if containerId != "" {
        var cid, td := containerId, tempDir;
        containerId := "";
        tempDir := "";
        released := released + [Container(cid, td)];
      }
    }

    /** On success the container is held; a failed compilation has already given it back. */
    method Compile(w: World) returns (r: Compiled)
      requires containerId == ""
      modifies this
      ensures r == CompileResult(w)
      ensures var holds := Taken(w).Some? && Taken(w).value.id != "";
        if holds && (r.Ready? || r.Crashed?) then
          Container(containerId, tempDir) == Taken(w).value && released == old(released)
        else
          containerId == "" && released == old(released) + (if holds then [Taken(w).value] else [])
      ensures Taken(w).None? ==> tempDir == w.freshDir
    {
      if w.warm.Some? {
        containerId, tempDir := w.warm.value.id, w.warm.value.dir;
      } else {
        tempDir := w.freshDir;
        if w.dockerRun.NoDockerSlot? {
          return Crashed;
        }
        if w.dockerRun.DockerFailed? {
          return NoSandbox;
        }
        containerId := w.dockerRun.id;
      }
      if w.writeFails {
        return Crashed;
      }
      if w.compiler.NoCompilerSlot? {
        return Crashed;
      }
      if w.compiler.CompilerTimedOut? {
        Cleanup();
        return NotCompiled;
      }
      if w.compiler.code != 0 {
        Cleanup();
        return NotCompiled;
      }
      if !w.mainJs {
        Cleanup();
        return NotCompiled;
      }
      return Ready;
    }

    /** execute with its finally clause: on every path the container that was taken, and no other,
        is given back exactly once, and nothing stays behind but the directory of a container that never started. */
    method Execute(w: World, verdict: Verdict) returns (reply: Reply)
      requires containerId == "" && tempDir == ""
      modifies this
      ensures containerId == ""
      ensures released == old(released) +
        (if Taken(w).Some? && Taken(w).value.id != "" then [Taken(w).value] else [])
      ensures Taken(w).None? ==> tempDir == w.freshDir
      ensures w.warm.Some? && w.warm.value.id != "" ==> released == old(released) + [w.warm.value]
      // the reply, by what the sandbox and the compiler answered
      ensures w.warm.None? && w.dockerRun.NoDockerSlot? ==> reply == Raised
      ensures w.warm.None? && w.dockerRun.DockerFailed? ==> reply == EnvironmentError
      ensures w.warm.Some? || w.dockerRun.DockerStarted? ==>
        if w.writeFails || w.compiler.NoCompilerSlot? then reply == Raised
        else match w.compiler
          case CompilerTimedOut => reply == CompilationError
          case CompilerExited(code) => reply == if code != 0 || !w.mainJs then CompilationError else Judged(verdict)
    {
      var compiled := Compile(w);
      match compiled {
        case NotCompiled => reply := CompilationError;
        case NoSandbox => reply := EnvironmentError;
        case Crashed => reply := Raised;
        case Ready => reply := Judged(verdict);
      }
      Cleanup();
    }
  }
}
