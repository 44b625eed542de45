/** `DetectionServiceImpl`: runs one detector over a text or over a file's content. */
module Detection {
  import opened Wrappers
  import opened Text
  import opened Errors
  import opened Models
  import RegexDetection
  import HybridDetection

  datatype DetectionService = DetectionService(detector: Detector)

  /** `detect_personal_information`: the wrapped detector's answer, as it is. */
  function DetectPersonalInformation(s: DetectionService, text: string): (r: Result<seq<Finding>, Error>)
    ensures r == s.detector.detect(text)
  {
    s.detector.detect(text)
  }

  /**
   * `detect_in_file`: the findings in the file's content, labelled with the
   * file's path; a detector error is passed on and no result is built.
   */
  function DetectInFile(s: DetectionService, file: FileInfo): (r: Result<ScanResult, Error>)
    ensures r.Ok? <==> s.detector.detect(file.content).Ok?
    ensures r.Ok? ==> r.value.file == file.path && r.value.findings == s.detector.detect(file.content).value
    ensures r.Err? ==> r.error == s.detector.detect(file.content).error
  {
    match DetectPersonalInformation(s, file.content)
    case Ok(found) => Ok(ScanResult(file.path, found))
    case Err(e) => Err(e)
  }

  /**
   * With the pattern detector every file gets a result, and each finding in
   * it names a line of the file and the bytes it occupies there.
   */
  lemma PatternFileResult(p: RegexDetection.Patterns, file: FileInfo)
    requires RegexDetection.WellFormed(p)
    ensures DetectInFile(DetectionService(RegexDetection.AsDetector(p)), file) ==
      Ok(ScanResult(file.path, RegexDetection.Findings(file.content, p)))
    ensures forall k :: 0 <= k < |RegexDetection.Findings(file.content, p)| ==>
      RegexDetection.PlacedIn(RegexDetection.Findings(file.content, p)[k], Lines(file.content))
  {
    RegexDetection.DetectFindingsFacts(file.content, p);
  }

  /** With the hybrid detector no two findings of a file's result share a key. */
  lemma HybridFileResultDistinct(ds: seq<Detector>, file: FileInfo)
    requires DetectInFile(DetectionService(HybridDetection.AsDetector(ds)), file).Ok?
    ensures var fs := DetectInFile(DetectionService(HybridDetection.AsDetector(ds)), file).value.findings;
      forall a, b :: 0 <= a < b < |fs| ==> HybridDetection.Key(fs[a]) != HybridDetection.Key(fs[b])
  {
    var text := file.content;
    if HybridDetection.Successes(ds, text) != [] {
      HybridDetection.DedupDistinct(HybridDetection.Flatten(HybridDetection.Successes(ds, text)));
    }
  }
}
