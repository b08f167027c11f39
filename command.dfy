/** The conversion settings and the argument list handed to `ffmpeg`
    (src/main.rs:9-40 and 79-127). */
module Command {
  import opened Types
  import Decimal

  /** The parsed command line: input path, optional `-o` override, video
      bitrate, audio bitrate (both kbps), frame rate, CRF quality factor, and
      the `-y` and `-v` flags. */
  datatype Config = Config(
    input: string,
    output: Option<string>,
    bitrate: u32,
    audioBitrate: u32,
    fps: u32,
    crf: u32,
    overwrite: bool,
    verbose: bool)

  const DefaultBitrate: u32 := 2000
  const DefaultAudioBitrate: u32 := 128
  const DefaultFps: u32 := 25
  const DefaultCrf: u32 := 23

  /** The settings when only the input is given on the command line. */
  function Defaults(input: string): (c: Config)
    ensures c.input == input && c.output.None? && !c.overwrite && !c.verbose
    ensures c.bitrate == 2000 && c.audioBitrate == 128 && c.fps == 25 && c.crf == 23
  {
    Config(input, None, DefaultBitrate, DefaultAudioBitrate, DefaultFps, DefaultCrf, false, false)
  }

  /** `format!("{}k", n)`. */
  function Kbps(n: nat): (s: string)
    ensures |s| >= 2 && s[|s| - 1] == 'k'
    ensures Decimal.Canonical(s[..|s| - 1]) && Decimal.Value(s[..|s| - 1]) == n
  {
    Decimal.ValueOfText(n);
    assert (Decimal.Text(n) + "k")[..|Decimal.Text(n)|] == Decimal.Text(n);
    Decimal.Text(n) + "k"
  }

  /** The fixed H.264 settings: baseline profile, level 3.0, 4:2:0 pixels. */
  const VideoProfile: seq<string> :=
    ["-c:v", "libx264", "-profile:v", "baseline", "-level", "3.0", "-pix_fmt", "yuv420p"]

  /** The fixed audio settings: AAC, 44100 Hz, two channels. */
  const AudioFormat: seq<string> := ["-c:a", "aac", "-ar", "44100", "-ac", "2"]

  /** The container settings that precede the output path. */
  const Container: seq<string> := ["-movflags", "+faststart", "-f", "mp4"]

  /** The trailer that silences ffmpeg unless `-v` was given. */
  const Quiet: seq<string> := ["-loglevel", "error"]

  /** Where the video block starts: after `-i <input>` and the optional `-y`. */
  function VideoAt(c: Config): (v: nat)
    ensures v == 2 || v == 3
    ensures v == 3 <==> c.overwrite
  {
    if c.overwrite then 3 else 2
  }

  /** What the command-building block of `main` produces, slot by slot. */
  ghost predicate Assembled(args: seq<string>, c: Config, output: string)
    requires c.bitrate * 2 < U32Limit
  {
    var v := VideoAt(c);
    && |args| == 31 + (if c.overwrite then 1 else 0) + (if c.verbose then 0 else 2)
    && args[..2] == ["-i", c.input]
    && (c.overwrite <==> args[2] == "-y")
    && args[v..v + 8] == VideoProfile
    && args[v + 8] == "-crf" && args[v + 9] == Decimal.Text(c.crf)
    && args[v + 10] == "-maxrate" && args[v + 11] == Kbps(c.bitrate)
    && args[v + 12] == "-bufsize" && args[v + 13] == Kbps(c.bitrate * 2)
    && args[v + 14] == "-r" && args[v + 15] == Decimal.Text(c.fps)
    && args[v + 16..v + 22] == AudioFormat
    && args[v + 22] == "-b:a" && args[v + 23] == Kbps(c.audioBitrate)
    && args[v + 24..v + 28] == Container
    && args[v + 28] == output
    && (!c.verbose <==> args[|args| - 2..] == Quiet)
    && (c.verbose ==> args[|args| - 1] == output)
  }

  /** `-i <input>`, then `-y` when overwriting. */
  function HeadArgs(c: Config): (r: seq<string>)
    ensures |r| == VideoAt(c)
  {
    ["-i", c.input] + (if c.overwrite then ["-y"] else [])
  }

  /** The video settings with the quality factor, the rate cap, the buffer
      of twice the cap and the frame rate. */
  function VideoArgs(c: Config): (r: seq<string>)
    requires c.bitrate * 2 < U32Limit
    ensures |r| == 16
  {
    VideoProfile + [
      "-crf", Decimal.Text(c.crf),
      "-maxrate", Kbps(c.bitrate),
      "-bufsize", Kbps(c.bitrate * 2),
      "-r", Decimal.Text(c.fps)]
  }

  /** The audio settings with the audio bitrate. */
  function AudioArgs(c: Config): (r: seq<string>)
    ensures |r| == 8
  {
    AudioFormat + ["-b:a", Kbps(c.audioBitrate)]
  }

  /** The trailer: `-loglevel error` unless verbose. */
  function TrailerArgs(c: Config): (r: seq<string>)
    ensures |r| == if c.verbose then 0 else 2
  {
    if c.verbose then [] else Quiet
  }

  /** The argument list, group by group. */
  function Arguments(c: Config, output: string): (args: seq<string>)
    requires c.bitrate * 2 < U32Limit
  {
    HeadArgs(c) + VideoArgs(c) + AudioArgs(c) + (Container + [output]) + TrailerArgs(c)
  }

  /** The command-building block of `main` (src/main.rs:79-127): the argument
      list grows by one group of arguments at a time, two of them conditional. */
  method BuildArgs(c: Config, output: string) returns (args: seq<string>)
    requires c.bitrate * 2 < U32Limit
    ensures args == Arguments(c, output)
    ensures Assembled(args, c, output)
  {
    args := ["-i", c.input];
    if c.overwrite {
      args := args + ["-y"];
    }
    args := args + VideoArgs(c);
    args := args + AudioArgs(c);
    args := args + (Container + [output]);
    if !c.verbose {
      args := args + Quiet;
    }
    ArgumentsAssembled(c, output);
  }

  lemma Split<T>(a: seq<T>, b: seq<T>)
    ensures (a + b)[..|a|] == a && (a + b)[|a|..] == b
  {
  }

  /** The slots of the first two groups. */
  lemma FrontLayout(c: Config, output: string)
    requires c.bitrate * 2 < U32Limit
    ensures var args := Arguments(c, output); var v := VideoAt(c);
      && args[..2] == ["-i", c.input]
      && (c.overwrite <==> args[2] == "-y")
      && args[v..v + 8] == VideoProfile
      && args[v + 8] == "-crf" && args[v + 9] == Decimal.Text(c.crf)
      && args[v + 10] == "-maxrate" && args[v + 11] == Kbps(c.bitrate)
      && args[v + 12] == "-bufsize" && args[v + 13] == Kbps(c.bitrate * 2)
      && args[v + 14] == "-r" && args[v + 15] == Decimal.Text(c.fps)
  {
    var args := Arguments(c, output);
    var v := VideoAt(c);
    var rest := AudioArgs(c) + (Container + [output]) + TrailerArgs(c);
    assert args == HeadArgs(c) + (VideoArgs(c) + rest);
    Split(HeadArgs(c), VideoArgs(c) + rest);
    Split(VideoArgs(c), rest);
    assert args[..2] == HeadArgs(c)[..2];
    assert args[v..v + 8] == VideoArgs(c)[..8];
    assert args[2] == (if c.overwrite then "-y" else VideoProfile[0]);
  }

  /** The slots of the last three groups. */
  lemma BackLayout(c: Config, output: string)
    requires c.bitrate * 2 < U32Limit
    ensures var args := Arguments(c, output); var v := VideoAt(c);
      && |args| == 31 + (if c.overwrite then 1 else 0) + (if c.verbose then 0 else 2)
      && args[v + 16..v + 22] == AudioFormat
      && args[v + 22] == "-b:a" && args[v + 23] == Kbps(c.audioBitrate)
      && args[v + 24..v + 28] == Container
      && args[v + 28] == output
      && (!c.verbose <==> args[|args| - 2..] == Quiet)
      && (c.verbose ==> args[|args| - 1] == output)
  {
    var args := Arguments(c, output);
    var v := VideoAt(c);
    var front := HeadArgs(c) + VideoArgs(c);
    var tail := Container + [output];
    assert args == front + (AudioArgs(c) + (tail + TrailerArgs(c)));
    Split(front, AudioArgs(c) + (tail + TrailerArgs(c)));
    Split(AudioArgs(c), tail + TrailerArgs(c));
    Split(tail, TrailerArgs(c));
    assert args[v + 16..v + 22] == AudioArgs(c)[..6];
    assert args[v + 24..v + 28] == tail[..4];
    if c.verbose {
      assert args[|args| - 2] == "mp4";
    } else {
      assert args[|args| - 2..] == TrailerArgs(c);
    }
  }

  /** The argument list has the layout `Assembled` describes. */
  lemma ArgumentsAssembled(c: Config, output: string)
    requires c.bitrate * 2 < U32Limit
    ensures Assembled(Arguments(c, output), c, output)
  {
    FrontLayout(c, output);
    BackLayout(c, output);
  }

  /** Reads the text `to_string` prints for a `u32`. */
  function ReadNumber(s: string): (r: Option<u32>)
    ensures r.Some? ==> Decimal.Text(r.value) == s
  {
    if Decimal.Canonical(s) && Decimal.Value(s) < U32Limit then
      Decimal.TextOfValue(s);
      Some(Decimal.Value(s))
    else
      None
  }

  /** Every printed `u32` reads back. */
  lemma ReadNumberOfText(n: u32)
    ensures ReadNumber(Decimal.Text(n)) == Some(n)
  {
    Decimal.ValueOfText(n);
  }

  /** Reads the text `format!("{}k", n)` prints for a `u32`. */
  function ReadKbps(s: string): (r: Option<u32>)
    ensures r.Some? ==> Kbps(r.value) == s
  {
    if |s| > 0 && s[|s| - 1] == 'k' then
      match ReadNumber(s[..|s| - 1])
      case Some(n) => assert s == s[..|s| - 1] + "k"; Some(n)
      case None => None
    else None
  }

  lemma ReadKbpsOfKbps(n: u32)
    ensures ReadKbps(Kbps(n)) == Some(n)
  {
    var s := Kbps(n);
    assert s[..|s| - 1] == Decimal.Text(n);
    ReadNumberOfText(n);
  }

  /** Reads an argument list back into the settings it was built from,
      the output slot giving the resolved output path; `None` for any list
      that the command-building block cannot produce. */
  function Decode(args: seq<string>): (r: Option<Config>)
  {
    if |args| < 31 then None
    else
      var overwrite := args[2] == "-y";
      var v := if overwrite then 3 else 2;
      var verbose := |args| == 29 + v;
      if !verbose && !(|args| == 31 + v && args[29 + v..] == Quiet) then None
      else if args[0] != "-i" || args[v..v + 8] != VideoProfile || args[v + 8] != "-crf"
        || args[v + 10] != "-maxrate" || args[v + 12] != "-bufsize" || args[v + 14] != "-r"
        || args[v + 16..v + 22] != AudioFormat || args[v + 22] != "-b:a"
        || args[v + 24..v + 28] != Container
      then None
      else
        match (ReadNumber(args[v + 9]), ReadKbps(args[v + 11]), ReadKbps(args[v + 13]),
               ReadNumber(args[v + 15]), ReadKbps(args[v + 23]))
        case (Some(crf), Some(rate), Some(buffer), Some(fps), Some(audio)) =>
          if buffer != 2 * rate then None
          else Some(Config(args[1], Some(args[v + 28]), rate, audio, fps, crf, overwrite, verbose))
        case _ => None
  }

  /** Reading the assembled list back gives the settings, with the resolved
      output path in place of the optional override: no setting is lost or
      confused with another. */
  lemma DecodeAssembled(args: seq<string>, c: Config, output: string)
    requires c.bitrate * 2 < U32Limit
    requires Assembled(args, c, output)
    ensures Decode(args) == Some(c.(output := Some(output)))
  {
    var v := VideoAt(c);
    ReadNumberOfText(c.crf);
    ReadNumberOfText(c.fps);
    ReadKbpsOfKbps(c.bitrate);
    ReadKbpsOfKbps(c.bitrate * 2);
    ReadKbpsOfKbps(c.audioBitrate);
    assert c.verbose <==> |args| == 29 + v;
  }

  /** Every list that reads back is exactly the list the command-building
      block assembles from what it reads back to. */
  lemma AssembledDecode(args: seq<string>)
    requires Decode(args).Some?
    ensures var c := Decode(args).value;
      c.output.Some? && c.bitrate * 2 < U32Limit && Assembled(args, c, c.output.value)
  {
    var c := Decode(args).value;
    var v := VideoAt(c);
    assert ReadKbps(args[v + 13]) == Some(c.bitrate * 2);
    assert args[1] == c.input && args[..2] == ["-i", c.input];
    assert c.verbose ==> args[|args| - 2] == args[v + 24..v + 28][3];
  }

  /** The buffer size is exactly twice the rate cap, read as numbers from the
      text that follows `-bufsize` and `-maxrate`. */
  lemma BufferIsTwiceCap(args: seq<string>, c: Config, output: string)
    requires c.bitrate * 2 < U32Limit
    requires Assembled(args, c, output)
    ensures var v := VideoAt(c);
      args[v + 10] == "-maxrate" && args[v + 12] == "-bufsize" &&
      ReadKbps(args[v + 11]) == Some(c.bitrate) &&
      ReadKbps(args[v + 13]) == Some(2 * c.bitrate)
  {
    ReadKbpsOfKbps(c.bitrate);
    ReadKbpsOfKbps(c.bitrate * 2);
  }

  /** Apart from the input and output slots, which carry whatever paths the
      user gave, `-y` occurs only right after the input, and only when
      overwriting was asked for. */
  lemma OverwriteFlagOnlyWhenAsked(args: seq<string>, c: Config, output: string)
    requires c.bitrate * 2 < U32Limit
    requires Assembled(args, c, output)
    ensures c.overwrite ==> args[2] == "-y"
    ensures forall i :: 0 <= i < |args| && i != 1 && i != VideoAt(c) + 28 && !(c.overwrite && i == 2) ==>
      args[i] != "-y"
  {
    var v := VideoAt(c);
    NumbersAreNotFlags(c);
    forall i | 0 <= i < |args| && i != 1 && i != v + 28 && !(c.overwrite && i == 2)
      ensures args[i] != "-y"
    {
      if i < v {
        assert i == 0 && args[i] == "-i";
      } else if i < v + 8 {
        assert args[i] == VideoProfile[i - v];
      } else if v + 16 <= i < v + 22 {
        assert args[i] == AudioFormat[i - v - 16];
      } else if v + 24 <= i < v + 28 {
        assert args[i] == Container[i - v - 24];
      } else if i > v + 28 {
        assert args[i] == Quiet[i - v - 29];
      }
    }
  }

  /** The printed numbers start with a digit, so none of them is `-y`. */
  lemma NumbersAreNotFlags(c: Config)
    ensures Decimal.Text(c.crf) != "-y" && Decimal.Text(c.fps) != "-y"
    ensures Kbps(c.bitrate) != "-y" && Kbps(c.bitrate * 2) != "-y" && Kbps(c.audioBitrate) != "-y"
  {
    assert Kbps(c.bitrate)[0] == Decimal.Text(c.bitrate)[0];
    assert Kbps(c.bitrate * 2)[0] == Decimal.Text(c.bitrate * 2)[0];
    assert Kbps(c.audioBitrate)[0] == Decimal.Text(c.audioBitrate)[0];
  }

  /** With the default settings the cap is `2000k` and the buffer `4000k`. */
  lemma DefaultRates()
    ensures Kbps(DefaultBitrate) == "2000k" && Kbps(DefaultBitrate * 2) == "4000k"
  {
    assert Decimal.Text(2000) == Decimal.Text(200) + ['0'];
    assert Decimal.Text(4000) == Decimal.Text(400) + ['0'];
  }
}
