/**
 * Choice of the capture pipeline from the `source` argument
 * (`Demo.__init__` in thermal_demo.py). A `/dev/video` device path gets
 * the camera pipeline, an `.mp4` or `.avi` file the file pipeline, and any
 * other source leaves the pipeline variable unbound. The source string is
 * spliced verbatim after `device=` or `location=`.
 */
module Pipeline {
  import opened Wrappers

  datatype SourceKind = CameraDevice | VideoFile | Unrecognised

  /** The error raised at the first use of a pipeline variable that no branch assigned. */
  datatype InitError = UnboundPipeline(source: string)

  const CameraPrefix := "/dev/video"

  /** Python's `str.endswith`. */
  predicate EndsWith(s: string, suffix: string)
  {
    |suffix| <= |s| && s[|s| - |suffix|..] == suffix
  }

  /** Python's `str.startswith`. */
  predicate StartsWith(s: string, prefix: string)
  {
    prefix <= s
  }

  /** The `if`/`elif` test: the device prefix is tried before the file suffixes. */
  function Classify(source: string): (kind: SourceKind)
    ensures kind == CameraDevice <==> |source| >= 10 && source[..10] == "/dev/video"
    ensures kind == VideoFile <==>
      !(|source| >= 10 && source[..10] == "/dev/video") && |source| >= 4 && source[|source| - 4..] in {".mp4", ".avi"}
  {
    if StartsWith(source, CameraPrefix) then CameraDevice
    else if EndsWith(source, ".mp4") || EndsWith(source, ".avi") then VideoFile
    else Unrecognised
  }

  /** The pieces of the templates that later code relies on: the frame size and the two element names. */
  const FrameSize := "width=640,height=640"
  const DrawerName := "name=drawer"
  const SinkName := "name=ml_sink"

  /**
   * The camera template is `CameraHead + source + CameraTail`. The tail is
   * the source's literal concatenation regrouped around the pieces above;
   * note that it has no space between `!` and `appsink`.
   */
  const CameraHead := "v4l2src device="
  const CameraAfterDrawer :=
    " ! autovideosink sync=false t. ! queue max-size-buffers=2 leaky=2 ! "
    + "videoconvert ! video/x-raw,format=RGB !appsink emit-signals=true drop=true max-buffers=2 "
  const CameraTail :=
    " ! videoconvert ! videoscale ! video/x-raw,"
    + FrameSize
    + " ! tee name=t t. ! queue max-size-buffers=2 leaky=2 ! cairooverlay "
    + DrawerName
    + CameraAfterDrawer
    + SinkName

  /** The file template is `FileHead + source + FileTail`, grouped the same way. */
  const FileHead := "filesrc location="
  const FileAfterDrawer :=
    " ! autovideosink sync=false t. ! queue ! videoconvert ! "
    + "appsink emit-signals=true drop=true max-buffers=2 "
  const FileTail :=
    " ! qtdemux ! h264parse ! avdec_h264 ! videoconvert ! videoscale ! video/x-raw,"
    + FrameSize
    + ",format=RGB ! tee name=t t. ! queue ! videoconvert ! cairooverlay "
    + DrawerName
    + FileAfterDrawer
    + SinkName

  /** The pipeline description `__init__` builds for a source, or the error its first use raises. */
  function PipelineFor(source: string): (p: Result<string, InitError>)
    ensures p.Err? <==> Classify(source) == Unrecognised
    ensures p.Err? ==> p.error == UnboundPipeline(source)
    ensures Classify(source) == CameraDevice ==> p.Ok? && CameraHead + source <= p.value
    ensures Classify(source) == VideoFile ==> p.Ok? && FileHead + source <= p.value
  {
    match Classify(source)
    case CameraDevice => Ok(CameraHead + source + CameraTail)
    case VideoFile => Ok(FileHead + source + FileTail)
    case Unrecognised => Err(UnboundPipeline(source))
  }

  /** Whether `needle` occurs in `s`. */
  predicate Contains(s: string, needle: string)
  {
    exists i :: 0 <= i <= |s| && needle <= s[i..]
  }

  /**
   * Reads back which template a pipeline description was built from and
   * the source spliced into it.
   */
  function ParsePipeline(p: string): Option<(SourceKind, string)>
  {
    if |CameraHead| + |CameraTail| <= |p| && StartsWith(p, CameraHead) && EndsWith(p, CameraTail) then
      Some((CameraDevice, p[|CameraHead|..|p| - |CameraTail|]))
    else if |FileHead| + |FileTail| <= |p| && StartsWith(p, FileHead) && EndsWith(p, FileTail) then
      Some((VideoFile, p[|FileHead|..|p| - |FileTail|]))
    else None
  }

  lemma {:induction false} SplicedAt(head: string, source: string, tail: string)
    ensures var p := head + source + tail;
      |head| + |tail| <= |p| && StartsWith(p, head) && EndsWith(p, tail)
      && p[|head|..|p| - |tail|] == source
  {
  }

  /**
   * The source is spliced in verbatim: the description names the template
   * the source's kind selects and gives the source back unchanged.
   */
  lemma PipelineRoundTrip(source: string)
    requires PipelineFor(source).Ok?
    ensures ParsePipeline(PipelineFor(source).value) == Some((Classify(source), source))
  {
    SplicedAt(CameraHead, source, CameraTail);
    SplicedAt(FileHead, source, FileTail);
    var p := PipelineFor(source).value;
    if Classify(source) == VideoFile {
      // The two templates start differently, so a file pipeline never reads as a camera one.
      assert p[0] == 'f' && CameraHead[0] == 'v';
    }
  }

  /** Different sources never share a pipeline description. */
  lemma PipelineInjective(s1: string, s2: string)
    requires PipelineFor(s1).Ok? && PipelineFor(s2).Ok?
    requires PipelineFor(s1) == PipelineFor(s2)
    ensures s1 == s2
  {
    PipelineRoundTrip(s1);
    PipelineRoundTrip(s2);
  }

  /** Exactly the sources that are neither a device path nor an `.mp4` or `.avi` file get no pipeline. */
  lemma UnboundExactly(source: string)
    ensures PipelineFor(source).Err? <==>
      !StartsWith(source, CameraPrefix) && !EndsWith(source, ".mp4") && !EndsWith(source, ".avi")
  {
  }

  /** A device path is spliced after `device=`, whatever suffix it has. */
  lemma CameraSplice(source: string)
    requires StartsWith(source, CameraPrefix)
    ensures PipelineFor(source).Ok? && Contains(PipelineFor(source).value, "device=" + source)
  {
    assert CameraHead == "v4l2src " + "device=";
    SpliceContains("v4l2src ", "device=", source, CameraTail);
  }

  /** A file path that is not a device path is spliced after `location=`. */
  lemma FileSplice(source: string)
    requires !StartsWith(source, CameraPrefix)
    requires EndsWith(source, ".mp4") || EndsWith(source, ".avi")
    ensures PipelineFor(source).Ok? && Contains(PipelineFor(source).value, "location=" + source)
  {
    assert FileHead == "filesrc " + "location=";
    SpliceContains("filesrc ", "location=", source, FileTail);
  }

  lemma SpliceContains(pre: string, key: string, source: string, tail: string)
    ensures Contains(pre + key + source + tail, key + source)
  {
    var p := pre + key + source + tail;
    assert p[|pre|..] == key + source + tail;
  }

  lemma ContainsAfter(front: string, s: string, needle: string)
    requires Contains(s, needle)
    ensures Contains(front + s, needle)
  {
    var i :| 0 <= i <= |s| && needle <= s[i..];
    assert (front + s)[|front| + i..] == s[i..];
  }

  /** The pieces of a six-part tail that stand at the even positions occur in it. */
  lemma TailPieces(a: string, size: string, b: string, drawer: string, c: string, sink: string)
    ensures Contains(a + size + b + drawer + c + sink, size)
    ensures Contains(a + size + b + drawer + c + sink, drawer)
    ensures Contains(a + size + b + drawer + c + sink, sink)
  {
    var t := a + size + b + drawer + c + sink;
    assert t[|a|..] == size + (b + drawer + c + sink);
    assert t[|a + size + b|..] == drawer + (c + sink);
    assert t[|a + size + b + drawer + c|..] == sink;
  }

  /**
   * Both templates name the overlay element `drawer` and the frame sink
   * `ml_sink` that `__init__` looks up next, and both scale to 640x640.
   */
  lemma NamedElements(source: string)
    requires PipelineFor(source).Ok?
    ensures Contains(PipelineFor(source).value, DrawerName)
    ensures Contains(PipelineFor(source).value, SinkName)
    ensures Contains(PipelineFor(source).value, FrameSize)
  {
    if Classify(source) == CameraDevice {
      TailPieces(" ! videoconvert ! videoscale ! video/x-raw,", FrameSize,
                 " ! tee name=t t. ! queue max-size-buffers=2 leaky=2 ! cairooverlay ", DrawerName,
                 CameraAfterDrawer, SinkName);
      ContainsAfter(CameraHead + source, CameraTail, DrawerName);
      ContainsAfter(CameraHead + source, CameraTail, SinkName);
      ContainsAfter(CameraHead + source, CameraTail, FrameSize);
    } else {
      TailPieces(" ! qtdemux ! h264parse ! avdec_h264 ! videoconvert ! videoscale ! video/x-raw,", FrameSize,
                 ",format=RGB ! tee name=t t. ! queue ! videoconvert ! cairooverlay ", DrawerName,
                 FileAfterDrawer, SinkName);
      ContainsAfter(FileHead + source, FileTail, DrawerName);
      ContainsAfter(FileHead + source, FileTail, SinkName);
      ContainsAfter(FileHead + source, FileTail, FrameSize);
    }
  }

  /** The device path `/dev/video.mp4` also ends in `.mp4`, yet the camera branch takes it. */
  lemma CameraTakesPriority()
    ensures Classify("/dev/video.mp4") == CameraDevice
    ensures PipelineFor("/dev/video.mp4") == Ok(CameraHead + "/dev/video.mp4" + CameraTail)
  {
  }
}
