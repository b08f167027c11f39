# telegram-video-converter, modelled in Dafny

`telegram-video-converter` is a small command-line wrapper around `ffmpeg`. It
checks that the input file exists and that `ffmpeg` answers. It then picks the
output path: the `-o` value, or `<dir>/<stem>_telegram.mp4` derived from the
input. It refuses to overwrite an existing output unless `-y` is given. It
builds a fixed `ffmpeg` argument list (H.264 baseline profile, level 3.0,
yuv420p, CRF, rate cap and twice-as-large buffer, frame rate, AAC 44.1 kHz
stereo audio, fast-start MP4). It runs the conversion and reports success or
failure, with the file sizes scaled to B/KB/MB/GB.

This project models the deterministic core of `src/main.rs` and proves what it
promises:

- `types.dfy` (`Types`): `Option`, and Rust's `u32` and `u64` as bounded
  naturals.
- `decimal.dfy` (`Decimal`): how Rust prints unsigned integers. The printed
  text reads back as the same number. Every canonical digit string is the
  text of exactly one number.
- `paths.dfy` (`Paths`): Rust's Unix `Path::parent`, `file_name`,
  `file_stem` and `PathBuf::push` on `/`-separated strings. This includes the
  normalisation that `Path::components` performs: redundant separators,
  trailing `/`, inner `.` steps, and a leading `.` or `/`. On top of these
  sits `generate_output_path`.
- `command.dfy` (`Command`): the settings record and the argument list, built
  by a method that appends one group of arguments at a time. A decoder reads
  the list back, and lemmas prove that the reading is exact in both
  directions.
- `sizes.dfy` (`Sizes`): the unit-selection loop of `format_bytes`, as a
  method with a `while` loop over exact rationals.
- `converter.dfy` (`Converter`): `main` after argument parsing. The checks
  run in order with early exit. The filesystem, the `ffmpeg -version` probe,
  the conversion's exit status and the post-run file metadata are inputs
  (`Host`). The run records its outcome, every `ffmpeg` argument list it tried
  to start, and the sizes it reports.

Three behaviours of the code that the model keeps:

- A bare input name such as `clip.mov` has an empty parent in Rust, so the
  derived path is `clip_telegram.mp4`, with no `./` prefix. The `"."` fallback
  (src/main.rs:171) is never used.
- `generate_output_path` panics when the input has no final normal
  component. Examples are `/`, `x/..` and `.`. The model calls this outcome
  `PathPanic`. It can be reached, since `/` exists. Rust exits with status
  101 after a panic in `main`.
- The code never suppresses `ffmpeg`'s output streams. Verbose mode changes
  only the `-loglevel error` trailer.

## Model

| member | source | states |
|---|---|---|
| `Decimal.Text` | src/main.rs:100-106 | the text `to_string` prints for a number is a non-empty digit string with no leading zero; it starts with `0` exactly when the number is 0 |
| `Decimal.ValueOfText` | src/main.rs:100-106 | reading back the printed text of any number gives that number |
| `Decimal.TextOfValue` | src/main.rs:100-106 | every canonical digit string is the printed text of the number it denotes, so printing is a bijection onto canonical strings |
| `Decimal.TextInjective` | src/main.rs:100-106 | distinct numbers print differently |
| `Paths.FileName` | src/main.rs:172 | Rust's `file_name`: when present it is a single normal component, never empty, `.`, `..` or containing `/` |
| `Types.Option.GetOr` | src/main.rs:171 | `unwrap_or`: the carried value when there is one, otherwise the default |
| `Paths.Parent` | src/main.rs:171 | Rust's `Path::parent`: when present it is a prefix of the path; it is missing exactly for the empty path and for a root with nothing but separators and `.` steps after it |
| `Paths.FileStem` | src/main.rs:172 | Rust's `file_stem`: present exactly when there is a file name, and then a non-empty prefix of it cut where `Paths.Stem` cuts |
| `Paths.Join` | src/main.rs:174-175 | `Path::join` of a relative name: the result starts with the directory and ends with the name, with one `/` between them exactly when the directory is non-empty and does not already end in `/` |
| `Paths.Stem` | src/main.rs:172 | `file_stem` drops only the final extension: the stem is a non-empty prefix of the name; it is the whole name when the name has no dot after its first character; otherwise a dot follows the stem and the rest has no dot |
| `Paths.OutputPathFor` | src/main.rs:169-179 | `generate_output_path` panics (None) exactly when the input has no file name; otherwise its result ends in `_telegram.mp4` |
| `Paths.FallbackUnused` | src/main.rs:171 | an input with a file name always has a parent, so the `"."` fallback never reaches a result; the result is the parent joined with stem + `_telegram.mp4` |
| `Paths.OutputKeepsDirectory` | src/main.rs:169-179 | the derived path has the input's parent as its parent, and its file name is the input's stem followed by `_telegram.mp4` |
| `Paths.BareName` | src/main.rs:171 | a bare file name has itself as its file name and an empty parent, not a missing one |
| `Paths.BareOutput` | src/main.rs:169-179 | for any bare `stem.ext` the derived path is `stem_telegram.mp4`, with no directory prefix |
| `Paths.NestedOutput` | src/main.rs:169-179 | for a one-level relative directory `dir` (a single normal name) and a bare `stem.ext`, the derived path of `dir/stem.ext` is `dir/stem_telegram.mp4` |
| `Paths.HiddenOutput` | src/main.rs:172 | a single leading dot is not an extension: `.base` gives `.base_telegram.mp4` |
| `Paths.RootedOutput` | src/main.rs:169-179 | for `/stem.ext` the derived path is `/stem_telegram.mp4`, keeping the root |
| `Paths.ExampleBareName` | src/main.rs:169-179 | `clip.mov` gives `clip_telegram.mp4` |
| `Paths.ExampleTwoDots` | src/main.rs:169-179 | `videos/a.b.mp4` gives `videos/a.b_telegram.mp4` |
| `Paths.ExampleHidden` | src/main.rs:172 | `.hidden` gives `.hidden_telegram.mp4` |
| `Paths.ExampleRooted` | src/main.rs:169-179 | `/clip.mov` gives `/clip_telegram.mp4` |
| `Paths.ExamplePanics` | src/main.rs:172 | `/`, the empty path and `x/..` make `file_stem().unwrap()` panic |
| `Command.Defaults` | src/main.rs:17-39 | with only the input given there is no output override, the video bitrate is 2000, the audio bitrate 128, the frame rate 25 and the CRF 23, and neither `-y` nor `-v` is set |
| `Command.BuildArgs` | src/main.rs:79-127 | appending group by group yields the list of `Arguments`, whose layout is: it starts `-i <input>`; `-y` comes right after the input exactly when overwriting; then come the fixed baseline/3.0/yuv420p settings, `-crf <crf>`, `-maxrate <bitrate>k`, `-bufsize <2*bitrate>k`, `-r <fps>`, the fixed AAC 44100 Hz stereo settings, `-b:a <audio>k`, `-movflags +faststart -f mp4 <output>`; `-loglevel error` are the last two entries exactly when not verbose, and otherwise the output is last; the length is 31 + (1 if `-y`) + (2 unless verbose) |
| `Command.ArgumentsAssembled` | src/main.rs:79-127 | the group-by-group argument list has exactly the slot layout described for `Command.BuildArgs` |
| `Command.Kbps` | src/main.rs:102-118 | `format!("{}k")`: a canonical decimal numeral followed by `k`, whose value is the rate |
| `Command.ReadNumber` | src/main.rs:100-106 | a number read from an argument is one whose printed text is exactly that argument |
| `Command.ReadKbps` | src/main.rs:102-118 | a rate read from a `<n>k` argument is one whose `format!("{}k")` text is exactly that argument |
| `Command.ReadNumberOfText` | src/main.rs:100-106 | every printed `u32` reads back as itself |
| `Command.ReadKbpsOfKbps` | src/main.rs:102-118 | every `<n>k` rate reads back as `n` |
| `Command.DecodeAssembled` | src/main.rs:79-127 | reading the assembled list back yields exactly the settings, with the resolved output path in place of the override: no setting is lost or confused with another |
| `Command.AssembledDecode` | src/main.rs:79-127 | every list that reads back is exactly the list assembled from what it reads back to, so reading and assembling are inverse |
| `Command.BufferIsTwiceCap` | src/main.rs:101-104 | the number after `-bufsize` is exactly twice the number after `-maxrate`, and the latter is the configured bitrate |
| `Command.OverwriteFlagOnlyWhenAsked` | src/main.rs:82-87 | `-y` is right after the input when overwriting; apart from the input and output slots, it occurs nowhere else |
| `Command.NumbersAreNotFlags` | src/main.rs:99-118 | no printed number or rate can be mistaken for the `-y` flag |
| `Command.DefaultRates` | src/main.rs:18-19 | with the default bitrate the cap is `2000k` and the buffer `4000k` |
| `Sizes.FormatBytes` | src/main.rs:181-192 | the unit index is the largest k ≤ 3 with 1024^k ≤ bytes (0 below 1024); the value shown is bytes / 1024^k, below 1024 unless the unit is GB; the unit name is B, KB, MB or GB at that index |
| `Sizes.UnitIsUnique` | src/main.rs:186-189 | that characterisation picks exactly one unit |
| `Sizes.UnitExamples` | src/main.rs:181-191 | 500 is in B; 2048 is 2.0 KB; 1572864 is 1.5 MB; 1073741824 is 1.0 GB. `Sizes.FormatExamples` shows that `FormatBytes` returns exactly these |
| `Converter.ResolveOutput` | src/main.rs:58-60 | an explicit `-o` is used verbatim; otherwise the derived path, which ends in `_telegram.mp4`; no output path exists only when there is no `-o` and the input has no file name |
| `Converter.LaunchResult.Succeeded` | src/main.rs:136 | `ExitStatus::success`: the process ran and ended with code 0; a signal (no code) or any other code is not success |
| `Converter.Outcome.ExitCode` | src/main.rs:48-160 | exit status 0 for success, 101 for the derivation panic (src/main.rs:172), 1 for every other outcome (the `exit(1)` calls) |
| `Converter.Encode` | src/main.rs:129-162 | after the checks, the probe and the assembled conversion are the processes started; a spawn error is a launch failure, an exit other than success is an encoding failure carrying its code (`None` for a signal), a successful exit is a success; both sizes are reported exactly on success when both files' metadata can be read |
| `Converter.Convert` | src/main.rs:45-162 | the checks run in order, each ending the run: input missing, then `ffmpeg` unavailable, then the derivation panic, then an existing output without `-y`; nothing is started before the input is found, the probe comes first, and the conversion is started exactly when every check passed, with the assembled argument list; a spawn error is a launch failure, a non-success exit is an encoding failure carrying the code, and only a successful exit is a success; exit status 0 exactly on success; sizes are reported exactly on success when both files' metadata can be read |

## Left out

- Argument parsing with `clap`, `--help`, `--version` and usage errors (src/main.rs:5-43): library behaviour. The defaults are recorded in `Command.Defaults`.
- Starting processes, the `ffmpeg -version` probe itself and `cmd.status()` (src/main.rs:131, 165-167): subprocess I/O. Their results are the `Host` inputs `encoderAvailable` and `launch`.
- Filesystem existence and metadata (src/main.rs:46, 63, 141-144): I/O. They are the `Host` inputs `existing` and `sizes`. `existing` is a set of path strings, so two spellings of one file (`a/b` and `a//b`) are not identified.
- Wall-clock timing (src/main.rs:130-138): a clock.
- The size ratio (src/main.rs:147-148) and the `{:.1}`/`{:.2}` renderings (src/main.rs:138, 148, 191): floating-point formatting. `Convert` reports the two raw byte counts instead.
- Console messages (src/main.rs:47, 53, 64-76, 137-159): printing.
- Sizes.FormatBytes: uses exact rationals where the source converts the `u64` to `f64`. Above 2^53 that conversion rounds the shown value. The unit choice is unaffected: every unit boundary (1024, 1024^2, 1024^3) is below 2^53, where the conversion is exact.
- Command.BuildArgs: requires `2 * bitrate < 2^32`. The source computes `args.bitrate * 2` in `u32`, which panics in a debug build and wraps in a release build beyond that bound. Neither behaviour is modelled.
- Converter.Convert: requires `2 * bitrate < 2^32`, for the same reason.
- Converter.Encode: requires `2 * bitrate < 2^32`, for the same reason.
- Windows path prefixes and non-UTF-8 names that would make `to_str().unwrap()` panic (src/main.rs:172, 176-177): the model covers Unix `/`-separated text only.
