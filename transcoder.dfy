/**
 * The NVIDIA transcoder of a go-livepeer node: the parser that reads the
 * manifest ID and sequence number out of a segment path, the round-robin
 * choice of GPU device, and the per-profile output options handed to ffmpeg.
 */
module Transcoder {
  import opened Wrappers
  import opened GoStrings
  import opened Strconv

  // ---------------------------------------------------------------------
  // Segment paths: parseURI
  // ---------------------------------------------------------------------

  /** The errors `parseURI` returns: its own "BadURI", or one from `ParseUint`. */
  datatype URIError = BadURI | NumError(e: NumError)

  /** The triple `(mid, seqNo, err)` of `parseURI`; `None` stands for nil. */
  datatype ParsedURI = ParsedURI(mid: string, seqNo: u64, err: Option<URIError>)

  /**
   * `parseURI` for a path of the form `.../<manifestID>/<seqNo>.<ext>`:
   * at least two '/' are required; the manifest ID is the second-to-last
   * '/'-piece; the sequence number is the text of the last piece before its
   * first '.', read by `ParseUint`.
   */
  function ParseURI(uri: string): (r: ParsedURI)
    ensures r.err == Some(BadURI) <==> Count(uri, '/') < 2
    ensures r.err == Some(BadURI) ==> r.mid == "" && r.seqNo == 0
    ensures '/' !in r.mid
  {
    var parts := Split(uri, '/');
    if |parts| < 3 then ParsedURI("", 0, Some(BadURI))
    else
      var mid := parts[|parts| - 2];
      var p := ParseUint(Split(parts[|parts| - 1], '.')[0]);
      ParsedURI(mid, p.value, if p.err.Some? then Some(NumError(p.err.value)) else None)
  }

  /** The sequence-number text of a last path piece: the part before its first '.'. */
  function SeqText(last: string): (r: string)
    ensures |r| <= |last| && r == last[..|r|] && '.' !in r
    ensures |r| < |last| ==> last[|r|] == '.'
  {
    last[..IndexOf(last, '.')]
  }

  /**
   * On `pre/mid/last`, with `mid` and `last` free of '/', `parseURI` returns
   * `mid` as the manifest ID whatever `pre` is and whether or not the
   * sequence number parses, and the sequence number and error are those of
   * `ParseUint` on the text of `last` before its first '.'.
   */
  lemma ParseURIOfPath(pre: string, mid: string, last: string)
    requires '/' !in mid && '/' !in last
    ensures var r := ParseURI(pre + "/" + mid + "/" + last);
      var p := ParseUint(SeqText(last));
      r.mid == mid && r.seqNo == p.value &&
      r.err == (if p.err.Some? then Some(NumError(p.err.value)) else None)
  {
    var front := pre + "/" + mid;
    SplitAppend(front, last, '/');
    SplitAppend(pre, mid, '/');
    SplitNoSep(mid, '/');
    SplitNoSep(last, '/');
    var parts := Split(front + "/" + last, '/');
    var n := |Split(pre, '/')|;
    assert parts == (Split(pre, '/') + [mid]) + [last];
    assert |parts| == n + 2;
    assert parts[n] == mid && parts[n + 1] == last;
    SplitFirst(last, '.');
  }

  /**
   * Conversely, every path that `parseURI` does not reject is of that form:
   * a prefix, '/', the returned manifest ID, '/', and a last piece free of '/'.
   */
  lemma ParseURIShape(uri: string) returns (pre: string, last: string)
    requires Count(uri, '/') >= 2
    ensures '/' !in last && uri == pre + "/" + ParseURI(uri).mid + "/" + last
  {
    SplitAtLast(uri, '/');
    var k := LastSegmentStart(uri, '/');
    var left := uri[..k - 1];
    last := uri[k..];
    SplitAtLast(left, '/');
    var k2 := LastSegmentStart(left, '/');
    var mid := left[k2..];
    pre := left[..k2 - 1];
    assert uri == pre + "/" + mid + "/" + last;
    ParseURIOfPath(pre, mid, last);
  }

  /**
   * Outcome of `parseURI` on a path it does not reject: success exactly when
   * the sequence-number text is a decimal numeral below 2^64, with that
   * numeral's value; otherwise a `ParseUint` error.
   */
  lemma ParseURISeqNo(pre: string, mid: string, last: string)
    requires '/' !in mid && '/' !in last
    ensures var r := ParseURI(pre + "/" + mid + "/" + last);
      (r.err == None <==> IsUint64Numeral(SeqText(last))) &&
      (r.err == None ==> r.seqNo as int == DecimalValue(SeqText(last))) &&
      (r.err != None ==> r.err.value.NumError?)
  {
    ParseURIOfPath(pre, mid, last);
    ParseUintSucceeds(SeqText(last));
  }

  /**
   * Round trip: a segment path built from a manifest ID, a sequence number
   * and an extension parses back to that manifest ID and sequence number.
   */
  lemma ParseURIRoundTrip(pre: string, mid: string, seqNo: u64, ext: string)
    requires '/' !in mid && '/' !in ext
    ensures ParseURI(pre + "/" + mid + "/" + FormatUint(seqNo as nat) + "." + ext)
         == ParsedURI(mid, seqNo, None)
  {
    var num := FormatUint(seqNo as nat);
    var last := num + "." + ext;
    assert pre + "/" + mid + "/" + num + "." + ext == pre + "/" + mid + "/" + last;
    assert '.' !in num by {
      forall j | 0 <= j < |num| ensures num[j] != '.' {
        assert IsDigit(num[j]);
      }
    }
    assert last[|num|] == '.';
    assert IndexOf(last, '.') == |num|;
    assert SeqText(last) == num;
    assert '/' !in num by {
      forall j | 0 <= j < |num| ensures num[j] != '/' {
        assert IsDigit(num[j]);
      }
    }
    assert '/' !in last;
    ParseURIOfPath(pre, mid, last);
    ParseFormat(seqNo as nat);
  }

  // ---------------------------------------------------------------------
  // Output options of NvidiaTranscoder.Transcode
  // ---------------------------------------------------------------------

  /** ffmpeg's hardware acceleration kinds. */
  datatype Acceleration = Software | Nvidia | Amd

  /** ffmpeg's description of one output rendition. */
  datatype VideoProfile = VideoProfile(
    name: string, bitrate: string, framerate: nat, resolution: string, aspectRatio: string)

  /** The input half of an ffmpeg transcode call. */
  datatype TranscodeOptionsIn = TranscodeOptionsIn(fname: string, accel: Acceleration, device: string)

  /** One output of an ffmpeg transcode call. */
  datatype TranscodeOptions = TranscodeOptions(oname: string, profile: VideoProfile, accel: Acceleration)

  /** File name of the `i`-th output: `out_<mid>_<i>.<base of fname>`. */
  function OutputLeaf(mid: string, i: nat, fname: string): string
  {
    "out_" + mid + "_" + FormatUint(i) + "." + Base(fname)
  }

  /**
   * Every output file ends with the input's base name, and it lies
   * directly under the work directory (its file name has no '/') unless
   * the manifest ID has a '/' or the input's base name is "/".
   */
  lemma OutputLeafShape(mid: string, i: nat, fname: string)
    ensures var leaf := OutputLeaf(mid, i, fname);
      |leaf| >= |Base(fname)| && leaf[|leaf| - |Base(fname)|..] == Base(fname) &&
      ('/' !in mid && Base(fname) != "/" ==> '/' !in leaf)
  {
    var num, b := FormatUint(i), Base(fname);
    var head := "out_" + mid + "_" + num + ".";
    var leaf := head + b;
    assert leaf == OutputLeaf(mid, i, fname);
    assert leaf[|head|..] == b;
    if '/' !in mid && b != "/" {
      assert '/' !in num by {
        forall j | 0 <= j < |num| ensures num[j] != '/' {
          assert IsDigit(num[j]);
        }
      }
      assert '/' !in b;
      LeafFreeOfSlash(mid, num, b);
    }
  }

  /** An output file name built from '/'-free parts has no '/'. */
  lemma LeafFreeOfSlash(mid: string, num: string, b: string)
    requires '/' !in mid && '/' !in num && '/' !in b
    ensures '/' !in "out_" + mid + "_" + num + "." + b
  {
  }

  /**
   * Path of the `i`-th output, `<workDir>/out_<mid>_<i>.<base of fname>`,
   * where `mid` is a fresh random manifest ID.
   */
  function OutputName(workDir: string, mid: string, i: nat, fname: string): (r: string)
    ensures |r| > |workDir| && r[..|workDir|] == workDir && r[|workDir|] == '/'
  {
    workDir + "/" + OutputLeaf(mid, i, fname)
  }

  /** The longest suffix of `s` made of digits. */
  function TrailingDigits(s: string): (r: string)
    ensures AllDigits(r) && |r| <= |s| && r == s[|s| - |r|..]
    decreases |s|
  {
    if |s| > 0 && IsDigit(s[|s| - 1]) then
      var r := TrailingDigits(s[..|s| - 1]) + [s[|s| - 1]];
      assert s[..|s| - 1][|s| - 1 - (|r| - 1)..] + [s[|s| - 1]] == s[|s| - |r|..];
      r
    else ""
  }

  /**
   * Reads the profile index back out of an output name, given the input
   * file name: strip ".<base of fname>", then read the trailing digits.
   */
  function OutputIndex(oname: string, fname: string): Option<nat>
  {
    var suffix := "." + Base(fname);
    if |oname| < |suffix| || oname[|oname| - |suffix|..] != suffix then None
    else
      var digits := TrailingDigits(oname[..|oname| - |suffix|]);
      if digits == "" then None else Some(DecimalValue(digits))
  }

  /** Digits after a non-digit are exactly the trailing digits. */
  lemma {:induction false} TrailingDigitsAfter(x: string, d: string)
    requires |x| > 0 && !IsDigit(x[|x| - 1]) && AllDigits(d)
    ensures TrailingDigits(x + d) == d
    decreases |d|
  {
    if |d| == 0 {
      assert x + d == x;
    } else {
      var init, c := d[..|d| - 1], d[|d| - 1];
      var s := x + d;
      assert s[..|s| - 1] == x + init;
      assert s[|s| - 1] == c;
      TrailingDigitsAfter(x, init);
      assert TrailingDigits(s) == TrailingDigits(x + init) + [c];
      assert init + [c] == d;
    }
  }

  /** The index of every output name can be read back from it, whatever the manifest ID. */
  lemma OutputIndexOfName(workDir: string, mid: string, i: nat, fname: string)
    ensures OutputIndex(OutputName(workDir, mid, i, fname), fname) == Some(i)
  {
    var num, b := FormatUint(i), Base(fname);
    var leaf := OutputLeaf(mid, i, fname);
    var head := "out_" + mid + "_";
    var x := workDir + "/" + head;
    var suffix := "." + b;
    assert leaf == head + num + suffix;
    var oname := workDir + "/" + leaf;
    assert oname == x + num + suffix;
    var stem := x + num;
    assert oname == stem + suffix;
    assert oname[|stem|..] == suffix && oname[..|stem|] == stem;
    assert x[|x| - 1] == '_';
    TrailingDigitsAfter(x, num);
  }

  /**
   * The outputs of one transcode call never share a file name, whatever
   * manifest IDs the random generator returns.
   */
  lemma OutputNamesDistinct(workDir: string, mid1: string, mid2: string, i: nat, j: nat, fname: string)
    requires i != j
    ensures OutputName(workDir, mid1, i, fname) != OutputName(workDir, mid2, j, fname)
  {
    OutputIndexOfName(workDir, mid1, i, fname);
    OutputIndexOfName(workDir, mid2, j, fname);
  }

  // ---------------------------------------------------------------------
  // Device round-robin
  // ---------------------------------------------------------------------

  /** The cursor after one `getDevice` call with `n` devices: the next one, wrapping to 0. */
  function NextDevice(cur: nat, n: nat): (r: nat)
    requires cur < n
    ensures r < n
    ensures r == if cur + 1 == n then 0 else cur + 1
  {
    (cur + 1) % n
  }

  /** The cursors, hence device indices, of `k` successive `getDevice` calls from `cur`. */
  function Cursors(cur: nat, n: nat, k: nat): (c: seq<nat>)
    requires cur < n
    ensures |c| == k
    ensures forall j :: 0 <= j < k ==> c[j] < n
    decreases k
  {
    if k == 0 then [] else [NextDevice(cur, n)] + Cursors(NextDevice(cur, n), n, k - 1)
  }

  /** Going once round `n` positions changes nothing modulo `n`. */
  lemma ModShift(n: nat, x: nat)
    requires n > 0
    ensures (n + x) % n == x % n
  {
    var q1, r1 := x / n, x % n;
    var q2, r2 := (n + x) / n, (n + x) % n;
    var d := q2 - q1 - 1;
    assert n * d == r1 - r2 by {
      assert x == n * q1 + r1 && n + x == n * q2 + r2;
      assert n * q2 - n * q1 - n == n * d;
    }
    MulAtLeast(n, d);
    MulAtLeast(n, -d);
    assert -(n * d) == n * -d;
  }

  /** A position below `n` is its own remainder. */
  lemma ModSmall(n: nat, x: nat)
    requires x < n
    ensures x % n == x
  {
  }

  /** A non-zero multiple of `n` is at least `n` away from 0. */
  lemma MulAtLeast(n: nat, d: int)
    ensures d >= 1 ==> n * d >= n
  {
  }

  /** Closed form of the cursors: call `i` (from 0) lands on `cur + 1 + i` modulo `n`. */
  lemma {:induction false} CursorsAt(cur: nat, n: nat, k: nat, i: nat)
    requires cur < n && i < k
    ensures Cursors(cur, n, k)[i] == (cur + 1 + i) % n
    decreases k
  {
    if i > 0 {
      var next := NextDevice(cur, n);
      CursorsAt(next, n, k - 1, i - 1);
      if cur + 1 == n {
        ModShift(n, i);
      }
    }
  }

  /** Within one round, the cursor of call `i` is `cur + 1 + i`, less `n` once past the end. */
  lemma CursorsInRound(cur: nat, n: nat, i: nat)
    requires cur < n && i < n
    ensures Cursors(cur, n, n)[i] == if cur + 1 + i < n then cur + 1 + i else cur + 1 + i - n
  {
    CursorsAt(cur, n, n, i);
    var x := cur + 1 + i;
    if x >= n {
      ModShift(n, x - n);
      ModSmall(n, x - n);
    } else {
      ModSmall(n, x);
    }
  }

  /**
   * Round-robin fairness: `n` calls with `n` devices visit every device
   * exactly once and leave the cursor where it started.
   */
  lemma RoundRobinFair(cur: nat, n: nat)
    requires cur < n
    ensures var c := Cursors(cur, n, n);
      (forall i, j :: 0 <= i < j < n ==> c[i] != c[j]) &&
      (forall d :: 0 <= d < n ==> d in c) &&
      c[n - 1] == cur
  {
    var c := Cursors(cur, n, n);
    forall i, j | 0 <= i < j < n ensures c[i] != c[j] {
      CursorsInRound(cur, n, i);
      CursorsInRound(cur, n, j);
    }
    forall d | 0 <= d < n ensures d in c {
      var i := if d > cur then d - cur - 1 else d + n - cur - 1;
      CursorsInRound(cur, n, i);
    }
    CursorsInRound(cur, n, n - 1);
  }

  /**
   * `NvidiaTranscoder`: transcodes on NVIDIA GPUs, spreading segments over a
   * list of devices. Each call of `GetDevice` is taken as atomic (the source
   * serialises them with a mutex).
   */
  class NvidiaTranscoder {
    var workDir: string
    var devices: seq<string>
    var curDev: nat

    /** There is at least one device and the cursor points at one of them. */
    ghost predicate Valid()
      reads this
    {
      |devices| >= 1 && curDev < |devices|
    }

    /** `NewNvidiaTranscoder(inp, workDir)`: the devices are the comma-separated pieces of `inp`. */
    constructor (inp: string, workDir: string)
      ensures Valid()
      ensures devices == Split(inp, ',') && curDev == 0 && this.workDir == workDir
    {
      this.workDir := workDir;
      devices := Split(inp, ',');
      curDev := 0;
    }

    /** `getDevice`: advance the cursor, wrapping around, and return the device it lands on. */
    method GetDevice() returns (d: string)
      requires Valid()
      modifies this`curDev
      ensures Valid()
      ensures curDev == NextDevice(old(curDev), |devices|)
      ensures d == devices[curDev]
      ensures devices == old(devices) && workDir == old(workDir)
    {
      curDev := (curDev + 1) % |devices|;
      d := devices[curDev];
    }

    /**
     * The set-up half of `Transcode`: the input options on the next device,
     * and one output per profile, the `i`-th named from `mids[i]`, the
     * manifest ID that `RandomManifestID` returns in iteration `i`.
     */
    method PrepareTranscode(fname: string, profiles: seq<VideoProfile>, mids: seq<string>)
      returns (input: TranscodeOptionsIn, opts: array<TranscodeOptions>)
      requires Valid()
      requires |mids| == |profiles|
      modifies this`curDev
      ensures Valid() && devices == old(devices) && workDir == old(workDir)
      ensures curDev == NextDevice(old(curDev), |devices|)
      ensures input == TranscodeOptionsIn(fname, Nvidia, devices[curDev])
      ensures fresh(opts) && opts.Length == |profiles|
      ensures forall i :: 0 <= i < |profiles| ==>
        opts[i] == TranscodeOptions(OutputName(workDir, mids[i], i, fname), profiles[i], Nvidia)
    {
      var device := GetDevice();
      input := TranscodeOptionsIn(fname, Nvidia, device);
      opts := new TranscodeOptions[|profiles|];
      for i := 0 to |profiles|
        modifies opts
        invariant forall k :: 0 <= k < i ==>
          opts[k] == TranscodeOptions(OutputName(workDir, mids[k], k, fname), profiles[k], Nvidia)
      {
        opts[i] := TranscodeOptions(OutputName(workDir, mids[i], i, fname), profiles[i], Nvidia);
      }
    }
  }
}
