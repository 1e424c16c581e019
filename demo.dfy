/**
 * The `Demo` object of thermal_demo.py: construction (label parsing and
 * pipeline selection) and the `new-sample` handler that keeps the latest
 * detection list for the overlay.
 *
 * The buffer map, the detector call and the streaming framework are not
 * modelled; the handler receives whether the buffer could be mapped and
 * what the detector returned (`None` when inference failed).
 */
module ThermalDemo {
  import opened Wrappers
  import opened Detections
  import Pipeline
  import Labels

  /**
   * What the `new-sample` handler ends with: `Gst.FlowReturn.OK`,
   * `Gst.FlowReturn.ERROR`, or the error `convert_detections` raised out of it.
   */
  datatype Flow = FlowOk | FlowError | Raised(error: ConvertError)

  class Demo {
    var inited: bool
    var detections: seq<Row>
    var labels: seq<string>
    var inputSource: string
    /** The pipeline description handed to the framework; empty when none was built. */
    var launched: string
    /** The results record whose conversion `detections` holds, if any has been stored. */
    ghost var shown: Option<Results>

    /**
     * The list the overlay reads is either the initial empty one or the
     * complete conversion of exactly one detector result, never a mix.
     */
    ghost predicate Valid()
      reads this
    {
      match shown
      case None => detections == []
      case Some(r) => Conversion(r) == Ok(detections)
    }

    /**
     * The body of `__init__` up to its first use of the pipeline: the labels
     * are parsed, the detection list starts empty, and `inited` is set only
     * once a pipeline has been built, which happens exactly for a device
     * path or an `.mp4`/`.avi` file. An object left with `inited` false is
     * one whose `__init__` raises; `Create` never hands it out.
     */
    constructor (source: string, labelsText: string)
      ensures Valid() && shown == None && detections == []
      ensures labels == Labels.ParseLabels(labelsText)
      ensures inputSource == source
      ensures inited <==> Pipeline.PipelineFor(source).Ok?
      ensures inited ==> launched == Pipeline.PipelineFor(source).value
      ensures !inited ==> launched == []
    {
      var selected := Pipeline.PipelineFor(source);
      detections := [];
      shown := None;
      labels := Labels.ParseLabels(labelsText);
      inputSource := source;
      launched := if selected.Ok? then selected.value else [];
      inited := selected.Ok?;
    }

    /**
     * `Demo(source, model_path, labels_path)` as the caller sees it: an
     * initialised object, or the `UnboundLocalError` that `__init__` raises
     * when no branch assigned the pipeline, with no object handed out.
     */
    static method Create(source: string, labelsText: string) returns (r: Result<Demo, Pipeline.InitError>)
      ensures r.Err? <==> Pipeline.PipelineFor(source).Err?
      ensures r.Err? ==> r.error == Pipeline.UnboundPipeline(source)
      ensures r.Ok? ==> fresh(r.value) && r.value.Valid() && r.value.inited
      ensures r.Ok? ==> r.value.detections == [] && r.value.shown == None
      ensures r.Ok? ==> r.value.labels == Labels.ParseLabels(labelsText) && r.value.inputSource == source
      ensures r.Ok? ==> r.value.launched == Pipeline.PipelineFor(source).value
    {
      var demo := new Demo(source, labelsText);
      if !demo.inited {
        return Err(Pipeline.UnboundPipeline(source));
      }
      r := Ok(demo);
    }

    /**
     * `inference`, the `new-sample` handler. A buffer that cannot be mapped
     * ends the call with ERROR before anything changes. Otherwise the stored
     * list is replaced by the conversion of the detector's result when there
     * is one, and kept when the detector returned `None`; a conversion that
     * raises leaves the stored list as it was.
     */
    method Inference(mapped: bool, detected: Option<Results>) returns (flow: Flow)
      requires Valid()
      modifies this`detections, this`shown
      ensures Valid()
      ensures !mapped ==> flow == FlowError && detections == old(detections) && shown == old(shown)
      ensures mapped && detected.None? ==> flow == FlowOk && detections == old(detections) && shown == old(shown)
      ensures mapped && detected.Some? ==>
        match Conversion(detected.value)
        case Ok(rows) => flow == FlowOk && detections == rows && shown == detected
        case Err(e) => flow == Raised(e) && detections == old(detections) && shown == old(shown)
    {
      if !mapped {
        return FlowError;
      }
      if detected.Some? {
        var converted := ConvertDetections(detected.value);
        if converted.Err? {
          return Raised(converted.error);
        }
        detections := converted.value;
        shown := detected;
      }
      flow := FlowOk;
    }
  }
}
