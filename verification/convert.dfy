/** The batch converter, `convert_hdr_to_sdr` in main.py: it picks the video
    files out of the input folder's listing, runs ffmpeg once per file, and
    reports and skips the files whose run fails. The directory listing, the
    existence of the two folders and ffmpeg's exit codes are inputs; what the
    converter does to the outside world is returned as a trace of effects. */
module Convert {
  import opened Seqs
  import opened Text

  /** The six extensions the converter recognises, compared against the
      lower-cased file name. */
  const VideoExtensions: set<string> := {".mp4", ".mkv", ".mov", ".avi", ".flv", ".wmv"}

  predicate IsVideoName(name: string) {
    exists ext :: ext in VideoExtensions && EndsWith(LowerStr(name), ext)
  }

  /** The video files of a listing, in listing order (`video_files`). A name
      is kept exactly when it is a video name, and as often as it occurs. */
  function SelectVideos(listing: seq<string>): (videos: seq<string>)
    ensures forall x :: x in videos <==> x in listing && IsVideoName(x)
  {
    FilterMembership(listing, IsVideoName);
    Filter(listing, IsVideoName)
  }

  /** `total_files`: a video name is selected as often as it is listed, and
      no other name is selected. */
  lemma SelectionCounts(listing: seq<string>)
    ensures forall x :: multiset(SelectVideos(listing))[x] == if IsVideoName(x) then multiset(listing)[x] else 0
  {
    FilterKeepsMultiplicity(listing, IsVideoName);
  }

  /** Every recognised extension ends with `4`, `v` or `i`, so a name whose
      lower-cased last character is none of these is never selected. */
  lemma NotVideoByLastChar(name: string)
    requires |name| > 0
    requires Lower(name[|name| - 1]) !in {'4', 'v', 'i'}
    ensures !IsVideoName(name)
  {
    var lower := LowerStr(name);
    forall ext | ext in VideoExtensions
      ensures !EndsWith(lower, ext)
    {
      assert ext[|ext| - 1] in {'4', 'v', 'i'};
    }
  }

  lemma ExampleNames()
    ensures IsVideoName("Trip.MKV") && IsVideoName("b.mov")
    ensures !IsVideoName("notes.txt") && !IsVideoName("clip.mp4.part")
  {
    assert IsVideoName("Trip.MKV") by {
      assert LowerStr("Trip.MKV")[4..] == ".mkv";
    }
    assert IsVideoName("b.mov") by {
      assert LowerStr("b.mov")[1..] == ".mov";
    }
    assert !IsVideoName("notes.txt") by {
      NotVideoByLastChar("notes.txt");
    }
    assert !IsVideoName("clip.mp4.part") by {
      NotVideoByLastChar("clip.mp4.part");
    }
  }

  /** Selection from a four-name listing keeps the video names in order. */
  lemma SelectFromFour(a: string, b: string, c: string, d: string)
    requires IsVideoName(a) && !IsVideoName(b) && !IsVideoName(c) && IsVideoName(d)
    ensures SelectVideos([a, b, c, d]) == [a, d]
  {
    assert [a, b, c, d] == [a, b, c] + [d];
    assert [a, b, c] == [a, b] + [c];
    assert [a, b] == [a] + [b];
    assert [a] == [] + [a];
    FilterAppend([], a, IsVideoName);
    FilterAppend([a], b, IsVideoName);
    FilterAppend([a, b], c, IsVideoName);
    FilterAppend([a, b, c], d, IsVideoName);
  }

  /** Selection is case-insensitive, looks only at the end of the name and
      keeps listing order. */
  lemma SelectionExample()
    ensures SelectVideos(["Trip.MKV", "notes.txt", "clip.mp4.part", "b.mov"]) == ["Trip.MKV", "b.mov"]
  {
    ExampleNames();
    SelectFromFour("Trip.MKV", "notes.txt", "clip.mp4.part", "b.mov");
  }

  /** What the converter does to the file system, in order. */
  datatype Effect =
    | MakeDirs(path: string)
    | Ffmpeg(input: string, output: string)

  /** The per-file lines the converter prints. */
  datatype Message =
    | Converted(position: nat, total: nat, name: string)
    | ConversionError(name: string, exitCode: int)

  datatype ConvertError = InputFolderNotFound(path: string)

  datatype Option<T> = None | Some(value: T)

  predicate IsZero(code: int) { code == 0 }

  predicate IsConverted(m: Message) { m.Converted? }

  /** One ffmpeg run per video file, reading the file under the input
      folder and writing the file of the same name under the output folder. */
  function Jobs(inputFolder: string, outputFolder: string, videos: seq<string>): seq<Effect> {
    seq(|videos|, k requires 0 <= k < |videos| => Ffmpeg(Join(inputFolder, videos[k]), Join(outputFolder, videos[k])))
  }

  /** What is printed for the file at `position` (counted from 1) of `total`. */
  function Outcome(position: nat, total: nat, name: string, exitCode: int): Message {
    if exitCode == 0 then Converted(position, total, name) else ConversionError(name, exitCode)
  }

  function ConversionLog(videos: seq<string>, exitCodes: seq<int>): seq<Message>
    requires |exitCodes| == |videos|
  {
    seq(|videos|, k requires 0 <= k < |videos| => Outcome(k + 1, |videos|, videos[k], exitCodes[k]))
  }

  /** Input and output path of every run name the same file: only the folder
      differs. */
  lemma JobsKeepFileName(inputFolder: string, outputFolder: string, videos: seq<string>)
    requires forall k :: 0 <= k < |videos| ==> '/' !in videos[k]
    ensures |Jobs(inputFolder, outputFolder, videos)| == |videos|
    ensures forall k :: 0 <= k < |videos| ==>
      var job := Jobs(inputFolder, outputFolder, videos)[k];
      BaseName(job.input) == videos[k] == BaseName(job.output)
  {
    forall k | 0 <= k < |videos|
      ensures BaseName(Join(inputFolder, videos[k])) == videos[k] == BaseName(Join(outputFolder, videos[k]))
    {
      JoinKeepsBaseName(inputFolder, videos[k]);
      JoinKeepsBaseName(outputFolder, videos[k]);
    }
  }

  /** Two sequences that agree position by position on "converted" and
      "exit code zero" have as many conversions as zero codes. */
  lemma {:induction false} SuccessesMatchZeroCodes(log: seq<Message>, exitCodes: seq<int>)
    requires |log| == |exitCodes|
    requires forall k :: 0 <= k < |log| ==> (log[k].Converted? <==> exitCodes[k] == 0)
    ensures |Filter(log, IsConverted)| == |Filter(exitCodes, IsZero)|
  {
    if log != [] {
      var n := |log| - 1;
      SuccessesMatchZeroCodes(log[..n], exitCodes[..n]);
    }
  }

  /** The progress count (the number of zero exit codes) equals the number
      of "Converted" lines printed. */
  lemma ProgressCountsConversions(videos: seq<string>, exitCodes: seq<int>)
    requires |exitCodes| == |videos|
    ensures |Filter(ConversionLog(videos, exitCodes), IsConverted)| == |Filter(exitCodes, IsZero)|
  {
    SuccessesMatchZeroCodes(ConversionLog(videos, exitCodes), exitCodes);
  }

  /** The progress bar reaches its total exactly when every run exits with 0. */
  lemma {:induction false} ProgressCompleteIffAllSucceeded(exitCodes: seq<int>)
    ensures |Filter(exitCodes, IsZero)| <= |exitCodes|
    ensures |Filter(exitCodes, IsZero)| == |exitCodes| <==> forall k :: 0 <= k < |exitCodes| ==> exitCodes[k] == 0
  {
    if exitCodes != [] {
      var n := |exitCodes| - 1;
      var init := exitCodes[..n];
      ProgressCompleteIffAllSucceeded(init);
      assert exitCodes == init + [exitCodes[n]];
      if exitCodes[n] != 0 {
        assert |Filter(exitCodes, IsZero)| == |Filter(init, IsZero)| <= n;
      }
    }
  }

  /** The number printed with "Converted" is the file's position in the list,
      not the number of files converted so far: here the second file is
      reported as 2 of 2 while the bar stands at 1. */
  lemma PositionIsNotSuccessCount()
    ensures ConversionLog(["a.mp4", "b.mkv"], [1, 0]) == [ConversionError("a.mp4", 1), Converted(2, 2, "b.mkv")]
    ensures |Filter([1, 0], IsZero)| == 1
  {
    assert [1, 0][..1] == [1];
  }

  /** The tqdm progress bar: a fixed total and a counter that `update`
      advances. */
  class ProgressBar {
    const total: nat
    var n: nat

    constructor (total: nat)
      ensures this.total == total && n == 0
    {
      this.total := total;
      n := 0;
    }

    method Update(k: nat)
      modifies this
      ensures n == old(n) + k
    {
      n := n + k;
    }
  }

  /** What the file at position `i` adds to the runs, the messages and the
      zero exit codes seen so far. */
  lemma ConvertStep(inputFolder: string, outputFolder: string, videos: seq<string>, exitCodes: seq<int>, i: nat)
    requires |exitCodes| == |videos| && i < |videos|
    ensures Jobs(inputFolder, outputFolder, videos)[..i + 1]
         == Jobs(inputFolder, outputFolder, videos)[..i] + [Ffmpeg(Join(inputFolder, videos[i]), Join(outputFolder, videos[i]))]
    ensures ConversionLog(videos, exitCodes)[..i + 1]
         == ConversionLog(videos, exitCodes)[..i] + [Outcome(i + 1, |videos|, videos[i], exitCodes[i])]
    ensures Filter(exitCodes[..i + 1], IsZero) == Filter(exitCodes[..i], IsZero) + if exitCodes[i] == 0 then [exitCodes[i]] else []
  {
    TakeOneMore(Jobs(inputFolder, outputFolder, videos), i);
    TakeOneMore(ConversionLog(videos, exitCodes), i);
    TakeOneMore(exitCodes, i);
    FilterAppend(exitCodes[..i], exitCodes[i], IsZero);
  }

  /** The loop of `convert_hdr_to_sdr` under its progress bar: one ffmpeg
      run per video file, in order; a non-zero exit code is reported and the
      loop goes on; a zero exit code advances the bar and is reported with
      the file's position. */
  method ConvertEach(inputFolder: string, outputFolder: string, videos: seq<string>, exitCodes: seq<int>)
    returns (runs: seq<Effect>, log: seq<Message>, progress: nat)
    requires |exitCodes| == |videos|
    ensures runs == Jobs(inputFolder, outputFolder, videos)
    ensures log == ConversionLog(videos, exitCodes)
    ensures progress == |Filter(exitCodes, IsZero)|
    ensures progress <= |videos|
  {
    var total := |videos|;
    var pbar := new ProgressBar(total);
    runs, log := [], [];
    for i := 0 to total
      invariant runs == Jobs(inputFolder, outputFolder, videos)[..i]
      invariant log == ConversionLog(videos, exitCodes)[..i]
      invariant pbar.n == |Filter(exitCodes[..i], IsZero)|
      invariant pbar.total == total && pbar.n <= i <= pbar.total
    {
      ConvertStep(inputFolder, outputFolder, videos, exitCodes, i);
      var filename := videos[i];
      var inputPath := Join(inputFolder, filename);
      var outputPath := Join(outputFolder, filename);
      runs := runs + [Ffmpeg(inputPath, outputPath)];
      var rc := exitCodes[i];
      if rc != 0 {
        log := log + [ConversionError(filename, rc)];
      } else {
        pbar.Update(1);
        log := log + [Converted(i + 1, total, filename)];
      }
    }
    assert exitCodes[..total] == exitCodes;
    progress := pbar.n;
  }

  /** `convert_hdr_to_sdr(input_folder, output_folder)`. `listing` is
      `os.listdir(input_folder)`; `exitCodes[k]` is ffmpeg's exit code for
      the k-th selected video file. Returns the effects in the order they
      happen, the per-file messages, the final progress count, and the error
      that aborted the run, if any. */
  method ConvertHdrToSdr(inputFolder: string, outputFolder: string, inputExists: bool, outputExists: bool,
                         listing: seq<string>, exitCodes: seq<int>)
    returns (effects: seq<Effect>, log: seq<Message>, progress: nat, error: Option<ConvertError>)
    requires |exitCodes| == |SelectVideos(listing)|
    // A missing input folder aborts before anything is created or run.
    ensures !inputExists ==> effects == [] && log == [] && progress == 0
                             && error == Some(InputFolderNotFound(inputFolder))
    // Otherwise the output folder is created if needed, then every video file
    // is run, whatever the exit codes of the runs before it.
    ensures inputExists ==> error == None
    ensures inputExists ==>
      effects == (if outputExists then [] else [MakeDirs(outputFolder)])
                 + Jobs(inputFolder, outputFolder, SelectVideos(listing))
    ensures inputExists ==> log == ConversionLog(SelectVideos(listing), exitCodes)
    // The bar advances once per zero exit code.
    ensures inputExists ==> progress == |Filter(exitCodes, IsZero)|
  {
    if !inputExists {
      return [], [], 0, Some(InputFolderNotFound(inputFolder));
    }
    effects := if outputExists then [] else [MakeDirs(outputFolder)];
    var videos := SelectVideos(listing);
    var runs;
    runs, log, progress := ConvertEach(inputFolder, outputFolder, videos, exitCodes);
    effects := effects + runs;
    error := None;
  }
}
