/** The control flow of `main` (src/main.rs:42-163): the preflight checks with
    early exit, the choice of the output path, the launch of the conversion
    and the decision on its outcome. The filesystem and the subprocesses are
    an abstract host whose answers are inputs. */
module Converter {
  import opened Types
  import Paths
  import opened Command

  /** What `cmd.status()` returns: the encoder could not be started, or it
      ran and ended with an exit code (`None` when a signal ended it). */
  datatype LaunchResult = SpawnError | Exited(code: Option<int>) {
    /** `ExitStatus::success`: the process ended with code 0. */
    predicate Succeeded()
      ensures Succeeded() <==> this == Exited(Some(0))
    {
      Exited? && code == Some(0)
    }
  }

  /** The answers of the world around the program.
      `existing`: the paths for which `Path::exists` holds before the run;
      `encoderAvailable`: whether `ffmpeg -version` could be started;
      `launch`: what running the conversion returns;
      `sizes`: the lengths `fs::metadata` reports after the run, for the paths
      whose metadata can be read. */
  datatype Host = Host(
    existing: set<string>,
    encoderAvailable: bool,
    launch: LaunchResult,
    sizes: map<string, u64>)

  /** How a run ends. `PathPanic` is the panic of `generate_output_path` when
      the input has no file name. */
  datatype Outcome =
    | InputNotFound
    | EncoderUnavailable
    | PathPanic
    | OutputExists
    | LaunchFailure
    | EncodingFailure(code: Option<int>)
    | Success
  {
    /** The process exit status: 0 on success, 1 for every reported failure,
        101 (Rust's status for a panic in `main`) for the panic. */
    function ExitCode(): (status: int)
      ensures status == 0 <==> Success?
      ensures status == 101 <==> PathPanic?
      ensures status == 1 <==> !Success? && !PathPanic?
    {
      match this
      case Success => 0
      case PathPanic => 101
      case _ => 1
    }
  }

  /** The record of one run: how it ended, the argument lists of the `ffmpeg`
      processes it tried to start, in order, and the input and output sizes
      it reports (on success, when both can be read). */
  datatype Run = Run(outcome: Outcome, invoked: seq<seq<string>>, sizes: Option<(u64, u64)>)

  /** The argument list of the availability probe. */
  const Probe: seq<string> := ["-version"]

  /** The output path `main` uses (src/main.rs:58-60): the `-o` value verbatim
      when given, otherwise the derived path; `None` when deriving panics. */
  function ResolveOutput(c: Config): (r: Option<string>)
    ensures c.output.Some? ==> r == c.output
    ensures c.output.None? ==> r == Paths.OutputPathFor(c.input)
    ensures c.output.None? && r.Some? ==> Paths.EndsWith(r.value, Paths.Suffix)
    ensures r.None? <==> c.output.None? && Paths.FileName(c.input).None?
  {
    match c.output
    case Some(path) => Some(path)
    case None => Paths.OutputPathFor(c.input)
  }

  /** All checks before the conversion pass: the input exists, the encoder
      answers, an output path is found, and it is free or may be overwritten. */
  ghost predicate Cleared(c: Config, host: Host) {
    && c.input in host.existing
    && host.encoderAvailable
    && ResolveOutput(c).Some?
    && (ResolveOutput(c).value !in host.existing || c.overwrite)
  }

  /** The conversion once every check has passed (src/main.rs:129-162): the
      probe and the conversion have been started, the launch decides the
      outcome, and the sizes are reported on success when both can be read. */
  method Encode(c: Config, output: string, host: Host) returns (run: Run)
    requires c.bitrate * 2 < U32Limit
    ensures run.invoked == [Probe, Arguments(c, output)]
    ensures run.outcome == LaunchFailure <==> host.launch.SpawnError?
    ensures run.outcome.EncodingFailure? <==> host.launch.Exited? && !host.launch.Succeeded()
    ensures run.outcome.EncodingFailure? ==> run.outcome.code == host.launch.code
    ensures run.outcome == Success <==> host.launch.Succeeded()
    ensures run.sizes.Some? <==> run.outcome == Success && c.input in host.sizes && output in host.sizes
    ensures run.sizes.Some? ==> run.sizes.value == (host.sizes[c.input], host.sizes[output])
  {
    var args := BuildArgs(c, output);
    var invoked := [Probe, args];
    match host.launch {
      case SpawnError =>
        return Run(LaunchFailure, invoked, None);
      case Exited(code) =>
        if code != Some(0) {
          return Run(EncodingFailure(code), invoked, None);
        }
    }
    var sizes: Option<(u64, u64)> := None;
    if c.input in host.sizes && output in host.sizes {
      sizes := Some((host.sizes[c.input], host.sizes[output]));
    }
    return Run(Success, invoked, sizes);
  }

  /** `main` after argument parsing. */
  method Convert(c: Config, host: Host) returns (run: Run)
    requires c.bitrate * 2 < U32Limit
    // the checks, in order, each ending the run
    ensures run.outcome == InputNotFound <==> c.input !in host.existing
    ensures run.outcome == EncoderUnavailable <==> c.input in host.existing && !host.encoderAvailable
    ensures run.outcome == PathPanic <==>
      c.input in host.existing && host.encoderAvailable && ResolveOutput(c).None?
    ensures run.outcome == OutputExists <==>
      c.input in host.existing && host.encoderAvailable && ResolveOutput(c).Some? &&
      ResolveOutput(c).value in host.existing && !c.overwrite
    // the probe runs once the input is found; the conversion only when every check passed
    ensures c.input !in host.existing ==> run.invoked == []
    ensures c.input in host.existing ==> 1 <= |run.invoked| <= 2 && run.invoked[0] == Probe
    ensures |run.invoked| == 2 <==> Cleared(c, host)
    ensures Cleared(c, host) ==> run.invoked[1] == Arguments(c, ResolveOutput(c).value)
    // the launch decides the rest
    ensures run.outcome == LaunchFailure <==> Cleared(c, host) && host.launch.SpawnError?
    ensures run.outcome.EncodingFailure? <==>
      Cleared(c, host) && host.launch.Exited? && !host.launch.Succeeded()
    ensures run.outcome.EncodingFailure? ==> run.outcome.code == host.launch.code
    ensures run.outcome == Success <==> Cleared(c, host) && host.launch.Succeeded()
    ensures run.outcome.ExitCode() == 0 <==> run.outcome == Success
    // sizes are reported only on success, and only when both can be read
    ensures run.sizes.Some? <==>
      run.outcome == Success && c.input in host.sizes && ResolveOutput(c).value in host.sizes
    ensures run.sizes.Some? ==>
      run.sizes.value == (host.sizes[c.input], host.sizes[ResolveOutput(c).value])
  {
    if c.input !in host.existing {
      return Run(InputNotFound, [], None);
    }
    if !host.encoderAvailable {
      return Run(EncoderUnavailable, [Probe], None);
    }
    var resolved := ResolveOutput(c);
    if resolved.None? {
      return Run(PathPanic, [Probe], None);
    }
    var output := resolved.value;
    if output in host.existing && !c.overwrite {
      return Run(OutputExists, [Probe], None);
    }
    run := Encode(c, output, host);
  }
}
