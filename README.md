# go-livepeer NVIDIA transcoder, modelled in Dafny

A go-livepeer node can transcode video segments on NVIDIA GPUs. This project
models the logic of `core/transcoder.go` that does not call ffmpeg or touch
the file system:

- `parseURI` reads the manifest ID and the sequence number out of a segment
  path of the form `.../<manifestID>/<seqNo>.<ext>`. It rejects paths with
  fewer than two '/' as `BadURI` and reads the number with Go's
  `strconv.ParseUint(s, 10, 64)`.
- `NewNvidiaTranscoder` splits a comma-separated device list. `getDevice`
  hands devices out round-robin through the cursor `curDev`.
- The first half of `NvidiaTranscoder.Transcode` builds the ffmpeg input
  options on the next device. It also builds one output option per video
  profile, named `<workDir>/out_<random id>_<i>.<base name of the input>`.

Files:

- `wrappers.dfy`: module `Wrappers`, an `Option` for Go's nil-or-value
  errors.
- `go_strings.dfy`: module `GoStrings`. It holds Go's `strings.Split`
  with a one-character separator, with `strings.Join` for a non-empty list
  of pieces as its inverse (not used by the transcoder), and
  `path/filepath.Base` with '/' as the separator.
- `strconv.dfy`: module `Strconv`. It holds `strconv.ParseUint(s, 10, 64)`,
  modelled on the left-to-right digit loop of the Go library, and the
  decimal rendering (`%d`) as `FormatUint`.
- `transcoder.dfy`: module `Transcoder`. It holds `ParseURI`, the output
  naming, and the class `NvidiaTranscoder` with its fields `workDir`,
  `devices` and `curDev`.

The NVIDIA transcoder is a class because `getDevice` updates `curDev` in
place. `parseURI` and the naming are pure functions. The option loop fills a
freshly allocated array by index, as the Go code fills its slice.

Go's `ParseUint` returns the value 0 with a syntax error and 2^64 - 1 with a
range error. It scans left to right and stops at the first problem. So an
over-long run of digits followed by a letter is a range error, not a syntax
error. `Strconv.ParseUintBehaviour` states this in full.

The discovery and selection subsystem (orchestrator pools, probing, the
registry cache) is not modelled.

## Model

| member | source | states |
|---|---|---|
| GoStrings.Split | core/transcoder.go:108 | `strings.Split` on one character gives exactly one piece more than there are separators, so never an empty list, and no piece contains the separator |
| GoStrings.SplitJoin | core/transcoder.go:101 | joining the pieces of a split with the separator gives back the input |
| GoStrings.JoinSplit | core/transcoder.go:101 | splitting a join of a non-empty list of separator-free pieces gives back the pieces |
| GoStrings.SplitNoSep | core/transcoder.go:101 | a string without the separator splits into a list holding only itself (a single device, or `[""]` for empty input) |
| GoStrings.SplitAppend | core/transcoder.go:108 | the split of `a + sep + b` is the split of `a` followed by the split of `b` |
| GoStrings.SplitFirst | core/transcoder.go:113-114 | the first piece of a split is the text before the first separator |
| GoStrings.SplitAtLast | core/transcoder.go:108-112 | a string with a separator is its text before the last separator, the separator, and a separator-free rest; the text before has one separator fewer |
| GoStrings.CountAppend | core/transcoder.go:109 | separator counts add over concatenation |
| GoStrings.IndexOf | core/transcoder.go:113 | the first occurrence of a character, or the length when there is none |
| GoStrings.Base | core/transcoder.go:73 | `filepath.Base` is never empty; it is "." for the empty path; for a non-empty path it is "/" exactly when the path is all '/'; otherwise, with the trailing '/' removed, it is the longest '/'-free suffix, which is the whole trimmed path or follows a '/' |
| Strconv.Scan | core/transcoder.go:114 | the digit loop of `ParseUint`: a syntax error carries 0, a range error 2^64 - 1, and success never lowers the value read so far; its full outcome is stated by `ParseUintBehaviour` |
| Strconv.ParseUint | core/transcoder.go:114 | the empty string is a syntax error; a syntax error carries 0 and a range error 2^64 - 1; its body is Go's scan, and its behaviour is stated in full by `ParseUintBehaviour` and `ParseUintSucceeds` |
| Strconv.ParseUintBehaviour | core/transcoder.go:114 | full behaviour of `ParseUint(s, 10, 64)`: the empty string is a syntax error with value 0; a leading digit run above 2^64 - 1 is a range error with value 2^64 - 1; any other non-digit is a syntax error with value 0; anything else gives the numeral's value |
| Strconv.ParseUintSucceeds | core/transcoder.go:114 | `ParseUint` gives no error exactly on non-empty decimal numerals below 2^64, and then gives their value; a syntax error carries 0 and a range error 2^64 - 1 |
| Strconv.ParseUintSyntax | core/transcoder.go:114 | a numeral below 2^64, or the empty string, followed by a non-digit is a syntax error with value 0 |
| Strconv.FormatUint | core/transcoder.go:73 | the `%d` rendering of `i` is a non-empty digit string, with no leading zero, whose decimal value is `i` |
| Strconv.ParseFormat | core/transcoder.go:114 | parsing the decimal rendering of a value below 2^64 gives that value and no error |
| Strconv.FormatParse | core/transcoder.go:114 | rendering the parsed value of a numeral without leading zeros gives back that numeral |
| Transcoder.ParseURI | core/transcoder.go:105-116 | the result is `BadURI` exactly when the path has fewer than two '/', and then the manifest ID is "" and the sequence number 0; the manifest ID never contains '/' |
| Transcoder.SeqText | core/transcoder.go:113-114 | piece 0 of the '.' split of the last path piece: the longest '.'-free prefix, followed by '.' when shorter than the piece |
| Transcoder.ParseURIOfPath | core/transcoder.go:108-115 | on `pre/mid/last` with `mid` and `last` free of '/', the manifest ID is `mid` whatever `pre` is and whether or not the number parses; the number and error are `ParseUint` of the text of `last` before its first '.' |
| Transcoder.ParseURIShape | core/transcoder.go:108-112 | every path with at least two '/' is a prefix, '/', the returned manifest ID, '/', and a last piece without '/' |
| Transcoder.ParseURISeqNo | core/transcoder.go:113-115 | on such a path the call succeeds exactly when the text of the last piece before its first '.' is a decimal numeral below 2^64, with that value; an empty, non-numeric or out-of-range text gives a `ParseUint` error |
| Transcoder.ParseURIRoundTrip | core/transcoder.go:105-116 | a path `pre/<mid>/<seqNo>.<ext>` parses back to `mid` and `seqNo` with no error |
| Transcoder.TrailingDigitsAfter | core/transcoder.go:73 | the digits after a non-digit (the '_' before the index) are exactly the trailing digit run |
| Transcoder.OutputIndexOfName | core/transcoder.go:73 | the profile index can be read back from every output name, whatever random manifest ID it holds |
| Transcoder.OutputNamesDistinct | core/transcoder.go:71-78 | two outputs of one call with different indices never share a file name, whatever manifest IDs are drawn |
| Transcoder.OutputLeaf | core/transcoder.go:73 | the output file name `out_<mid>_<i>.<base of fname>` of the `Sprintf`; its shape is stated by `OutputLeafShape`, and reading the index back by `OutputIndexOfName` |
| Transcoder.OutputName | core/transcoder.go:73 | the output path starts with the work directory followed by '/'; that the index is readable from it and names differ is stated by `OutputIndexOfName` and `OutputNamesDistinct` |
| Transcoder.OutputLeafShape | core/transcoder.go:73 | the output file name ends with the input's base name, and has no '/' (so the output lies directly under `workDir`) unless the manifest ID has one or the input's base name is "/" |
| Transcoder.NextDevice | core/transcoder.go:59 | the cursor moves to the next device and wraps to 0 after the last one, and stays a valid index |
| Transcoder.Cursors | core/transcoder.go:59-60 | the cursors of `k` successive `getDevice` calls: `k` of them, each a valid device index; their values are stated by `CursorsAt` and `RoundRobinFair` |
| Transcoder.CursorsAt | core/transcoder.go:59-60 | after `i + 1` successive `getDevice` calls from cursor `cur`, for any number of calls, the cursor is `(cur + 1 + i) % n` with `n` the device count |
| Transcoder.CursorsInRound | core/transcoder.go:59-60 | within the first `n` calls the cursor of call `i` is `cur + 1 + i`, less `n` once it passes the last device |
| Transcoder.RoundRobinFair | core/transcoder.go:56-61 | with `n` devices, `n` successive calls visit every device index exactly once and leave the cursor where it started |
| Transcoder.NvidiaTranscoder.constructor | core/transcoder.go:100-103 | the devices are the comma-separated pieces of `inp`, so never an empty list; the cursor starts at 0; the work directory is stored |
| Transcoder.NvidiaTranscoder.GetDevice | core/transcoder.go:56-61 | the cursor stays a valid index, advances to `(curDev + 1) % len(devices)` and selects the returned device; the first call after construction therefore returns `devices[1 % n]`; devices and work directory are unchanged |
| Transcoder.NvidiaTranscoder.PrepareTranscode | core/transcoder.go:63-78 | the input options name the file, NVIDIA acceleration and the next device; the output array is new, has one entry per profile, and entry `i` holds profile `i`, NVIDIA acceleration and the `i`-th output name under `workDir` |

## Left out

- `LocalTranscoder.Transcode` (core/transcoder.go:29-41) and `NewLocalTranscoder`: they only call ffmpeg, the monitor and the clock. `parseURI` is their only logic, and it is modelled.
- The second half of `NvidiaTranscoder.Transcode` (core/transcoder.go:80-97): the `ffmpeg.Transcode2` call, reading the output files back and removing them. All of it is foreign calls and file I/O.
- `RandomManifestID`: its randomness becomes the parameter `mids` of `PrepareTranscode`, one identifier per loop iteration. Its definition is not part of this model.
- Transcoder.NvidiaTranscoder.PrepareTranscode: requires `|mids| == |profiles|`, because one random identifier is drawn per profile. Go places no such demand on callers.
- The mutex in `getDevice` (core/transcoder.go:52, 57-58): each call is treated as atomic and calls are sequential. Concurrency is not modelled.
- `ffmpeg.VideoProfile`, `TranscodeOptions`, `TranscodeOptionsIn` and `Acceleration` come from lpms, whose source is not part of this model. Their fields here are stand-ins; the model only copies profiles into the options.
- Errors carry only their kind: `BadURI`, or `ErrSyntax`/`ErrRange` from `ParseUint`. The message of `fmt.Errorf("BadURI")` and the `Func` and `Num` fields of Go's `*strconv.NumError` are not modelled. The only caller tests the error against nil (core/transcoder.go:33).
- `filepath.Base` is modelled for a system whose path separator is '/'. Windows volume names are not modelled.
- `strings.Split` is modelled for one-character separators only, which are the only ones this file uses (',', '/', '.').
- The discovery and selection subsystem (orchestrator pools, probing, the registry cache) is not modelled; the command-line wizard and the NVIDIA integration tests are I/O and UI glue.
- Go strings are byte strings; the model uses sequences of characters. Every separator and digit test is ASCII ('/', ',', '.', '0'-'9'), so results agree on valid UTF-8; strings holding invalid UTF-8 cannot be represented.
- `Join` is defined only for non-empty lists (Go returns "" for an empty one); it is used only to state that `Split` is invertible.
