# Thermal demo: a Dafny model of the application's own logic

The thermal demo pulls frames from a V4L2 camera or a video file through a
GStreamer pipeline. It runs each frame through a Hailo accelerator for
object detection and draws the detections on a cairo overlay. Almost all of
the work happens in those collaborators. This project models the
deterministic logic that `thermal_demo.py` owns itself:

- **Detection conversion** (`Detections`): `convert_detections` turns the
  detector's results record into one `[x1, y1, x2, y2, score, cls]` row per
  detection. It is modelled as a loop (`ConvertDetections`) proved equal to
  a specification function (`Conversion`). The function states the row
  count, the row order, the reordering of each box from `(y1, x1, y2, x2)`
  to `(x1, y1, x2, y2)`, the truncation of the class to an integer, and the
  `IndexError` or `ValueError` raised by the first row that cannot be read.
- **Construction** (`ThermalDemo.Demo.Create`): creating a `Demo` either
  yields an initialised object or fails with the `UnboundLocalError` that
  `__init__` raises when the source selects no pipeline.
- **Latest-detections slot** (`ThermalDemo.Demo`): a class whose
  `detections` field the `new-sample` handler replaces only when the
  buffer maps and the detector returns a result that converts. A ghost
  record of the stored result keeps the invariant that the overlay only
  ever sees the initial empty list or one complete conversion.
- **Pipeline selection** (`Pipeline`): a `/dev/video` prefix selects the
  camera template and wins over the file test. An `.mp4` or `.avi` suffix
  selects the file template. Any other source leaves the pipeline unbound,
  which is an error at its first use. The source is spliced verbatim after
  `device=` or `location=`, and it can be read back from the description.
- **Label parsing** (`Labels`): the label file's text is cut into lines as
  `readlines` does. Each line is stripped with Python's whitespace set, and
  file order is kept. The list comprehension is `MapLines`, a map over the
  lines that is generic in the function applied.

Coordinates and scores are `real`, because the code only moves them.
Classes are `real`, and Python's `int()` on them is truncation toward zero
(`Trunc`).

## Model

| member | source | states |
|---|---|---|
| Detections.Trunc | thermal_demo.py:104 | `int()` of a class value truncates toward zero: the result is within one of the value, on the value's side of zero |
| Detections.RowError | thermal_demo.py:101-104 | within one iteration the raise comes from the first failing step in Python's order: a missing box, then a box that does not unpack into four values (reporting how many it holds), then a missing score, then a missing class; the row reads exactly when no step fails |
| Detections.FirstFault | thermal_demo.py:101-104 | finds the first index below the count whose row raises, with every earlier row readable, or reports that every row is readable |
| Detections.Conversion | thermal_demo.py:99-106 | succeeds exactly when all three arrays reach the count and each of the first `num_detections` boxes holds four values; then gives `max(num_detections, 0)` rows in index order, row i being `(box[1], box[0], box[3], box[2], score[i], int(class[i]))`; otherwise gives the error of the first faulty row |
| Detections.ConvertDetections | thermal_demo.py:99-106 | the appending loop returns exactly `Conversion` of the record, stopping with that error at the first faulty row |
| Detections.ConversionOfUnconvert | thermal_demo.py:102-105 | every list of rows is the conversion of the record that swaps each box back and stores each class as a whole number, so the conversion loses no row data |
| Detections.UnconvertOfConversion | thermal_demo.py:101-105 | undoing a successful conversion gives back the first `num_detections` boxes and scores exactly, and the classes truncated |
| Pipeline.Classify | thermal_demo.py:32-44 | a source is a camera device exactly when its first ten characters are `/dev/video`, and a video file exactly when it is not one and its last four characters are `.mp4` or `.avi` |
| Pipeline.PipelineFor | thermal_demo.py:32-57 | the selection fails with the unbound-pipeline error exactly when the source is of neither kind; a camera source gets a description beginning `v4l2src device=<source>`, a file source one beginning `filesrc location=<source>` |
| Pipeline.UnboundExactly | thermal_demo.py:32-57 | the pipeline stays unbound exactly for sources that neither start with `/dev/video` nor end in `.mp4` or `.avi` |
| Pipeline.CameraSplice | thermal_demo.py:32-34 | a source starting with `/dev/video` gets a pipeline containing `device=<source>`, whatever its suffix |
| Pipeline.FileSplice | thermal_demo.py:44-46 | a source that is not a device path but ends in `.mp4` or `.avi` gets a pipeline containing `location=<source>` |
| Pipeline.CameraTakesPriority | thermal_demo.py:32-44 | `/dev/video.mp4` selects the camera template because the prefix test comes first |
| Pipeline.PipelineRoundTrip | thermal_demo.py:32-55 | a built description reads back as the template the source's kind selects, with the source unchanged between head and tail |
| Pipeline.PipelineInjective | thermal_demo.py:32-55 | two sources that build the same description are the same source |
| Pipeline.NamedElements | thermal_demo.py:33-66 | both templates name the `drawer` overlay and the `ml_sink` sink that are looked up afterwards, and both scale to 640x640 |
| Labels.IsSpace | thermal_demo.py:72 | on ASCII it accepts exactly what `str.isspace` accepts: space, tab, line feed, carriage return, vertical tab, form feed and the separators U+001C to U+001F; above ASCII it adds Python's Unicode whitespace |
| Labels.Strip | thermal_demo.py:72 | `strip()` leaves no whitespace, in Python's sense, at either end of the line |
| Labels.StripSlice | thermal_demo.py:72 | `strip()` returns a contiguous slice of the line, and only whitespace is cut from either side |
| Labels.StripClean | thermal_demo.py:72 | a line with no whitespace at its ends is left unchanged |
| Labels.SplitLines | thermal_demo.py:72 | `readlines` cuts the text into non-empty lines that concatenate back to the text, each holding `'\n'` only at its end, every line but the last ending in one |
| Labels.LineSplitUnique | thermal_demo.py:72 | any cut with those properties is the one `readlines` makes |
| Labels.ParseLabels | thermal_demo.py:70-72 | `get_labels` gives exactly one label per line that `readlines` returns |
| Labels.MapLines | thermal_demo.py:72 | the list comprehension gives one entry per line |
| Labels.MapLinesAt | thermal_demo.py:72 | entry i of the comprehension is the applied function's value on line i |
| Labels.LabelAtLine | thermal_demo.py:72 | the label at index i is line i of the file, stripped, so a class index is a line number |
| Labels.LineCount | thermal_demo.py:72 | `readlines` returns one line per `'\n'`, plus one for an unterminated last line |
| Labels.LabelCount | thermal_demo.py:70-72 | there is one label per `'\n'`, plus one for an unterminated last line |
| Labels.ParseWrittenLabels | thermal_demo.py:70-72 | a file listing clean names one per line parses back to the same names in the same order, so label index equals line index |
| ThermalDemo.Demo.constructor | thermal_demo.py:17-68 | the labels are the parsed file, the detection list starts empty, and `inited` holds exactly when a pipeline was built, which is then the one launched; an object with `inited` false stands for an `__init__` that raises and is never handed out by `Create` |
| ThermalDemo.Demo.Create | thermal_demo.py:32-57 | constructing a `Demo` fails with the unbound-pipeline error exactly when the source selects no pipeline, and otherwise yields a fresh, initialised object with the parsed labels, an empty detection list and the selected pipeline |
| ThermalDemo.Demo.Inference | thermal_demo.py:74-97 | a failed map returns ERROR with nothing changed; a `None` result returns OK with the list kept; a result replaces the list with its conversion and returns OK, or leaves the list as it was when the conversion raises; the slot invariant is preserved |

## Left out

- `hailo_inference.py` is not part of this model. It consists of HailoRT SDK calls, and its post-processing (`extract_detections`: thresholding, NMS, denormalisation) is not in the repository. The detector's result is a parameter of `Inference`.
- GStreamer: `Gst.parse_launch`, state changes, signal connections, `pull-sample`, the caps lookup, the buffer map and unmap, and the numpy reshape are foreign calls. `Inference` receives only whether the map succeeded. The model assumes that parsing and launching a built description succeed, and it does not model a reshape that fails on mismatched dimensions.
- `Demo.draw` and `Demo.close` are cairo rendering with floating-point colour arithmetic and HailoRT teardown.
- The colour table depends on Python's seeded `random` generator, whose sequence is not visible here.
- The argparse command line, the GLib main loop and the `print` calls are left out.
- Opening and decoding the label file is left out, including the translation of `'\r\n'` and `'\r'` to `'\n'` in text mode. `ParseLabels` starts from the decoded text.
- Any interleaving of the `draw` and `new-sample` callbacks is left out, because it is concurrency.
- Detections.Conversion: the model assumes the results record has all four keys, so the `KeyError` of a missing key is not modelled. Classes are real numbers, so the errors `int()` raises on NaN or infinity are not modelled.
- ThermalDemo.Demo.Inference: when `convert_detections` raises, what the framework does with the exception is not modelled. The handler's outcome is reported as `Raised`.
