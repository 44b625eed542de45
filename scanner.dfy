/**
 * `FileSystemScanner`: lists the files to scan under a path, keeping only
 * those with a supported extension, and reads one file's text through the
 * extractor manager.
 */
module Scanning {
  import opened Wrappers
  import opened Text
  import opened Errors
  import opened Models
  import opened Paths
  import opened FileSystem
  import opened Extraction
  import opened Progress

  /** The extensions the scanner lists, compared after lowercasing. */
  const ScannerTypes: seq<string> := ["txt", "md", "csv", "pdf", "docx"]

  const PathNotFoundPrefix := "Path not found: "
  const FileNotFoundPrefix := "File not found: "

  /** `is_supported_extension` */
  predicate IsSupportedExtension(path: string)
  {
    Extension(path).Some? && Lower(Extension(path).value) in ScannerTypes
  }

  /** The walk entries that are regular files with a supported extension, in walk order. */
  function SupportedFiles(fs: Fs, entries: seq<string>): seq<string>
  {
    if entries == [] then []
    else
      var e := entries[|entries| - 1];
      SupportedFiles(fs, entries[..|entries| - 1]) + (if fs.isFile(e) && IsSupportedExtension(e) then [e] else [])
  }

  lemma SupportedFilesStep(fs: Fs, entries: seq<string>, i: nat)
    requires i < |entries|
    ensures SupportedFiles(fs, entries[..i + 1]) == SupportedFiles(fs, entries[..i]) +
      (if fs.isFile(entries[i]) && IsSupportedExtension(entries[i]) then [entries[i]] else [])
  {
    assert entries[..i + 1][..i] == entries[..i];
  }

  /** What `scan_path` returns. */
  function Listing(fs: Fs, path: string, recursive: bool): Result<seq<string>, Error>
  {
    if !fs.pathExists(path) then Err(IoError(NotFound, PathNotFoundPrefix + path))
    else if fs.isFile(path) then Ok(if IsSupportedExtension(path) then [path] else [])
    else if fs.isDir(path) then Ok(SupportedFiles(fs, fs.walk(path, recursive)))
    else Ok([])
  }

  /**
   * A directory listing keeps exactly the supported regular files among the
   * walk entries, in walk order, and nothing else.
   */
  lemma {:induction false} SupportedFilesSpec(fs: Fs, entries: seq<string>)
    ensures forall f :: f in SupportedFiles(fs, entries) <==> f in entries && fs.isFile(f) && IsSupportedExtension(f)
    ensures |SupportedFiles(fs, entries)| <= |entries|
  {
    if entries != [] {
      var n := |entries| - 1;
      SupportedFilesSpec(fs, entries[..n]);
      assert entries == entries[..n] + [entries[n]];
    }
  }

  /** What `scan_path` promises: a missing path is an error, anything else lists supported files only. */
  lemma ListingSpec(fs: Fs, path: string, recursive: bool)
    ensures Listing(fs, path, recursive).Err? <==> !fs.pathExists(path)
    ensures Listing(fs, path, recursive).Err? ==>
      Listing(fs, path, recursive).error == IoError(NotFound, PathNotFoundPrefix + path)
    ensures Listing(fs, path, recursive).Ok? ==>
      forall f :: f in Listing(fs, path, recursive).value ==> IsSupportedExtension(f)
    ensures fs.pathExists(path) && fs.isFile(path) ==>
      Listing(fs, path, recursive).value == (if IsSupportedExtension(path) then [path] else [])
    ensures fs.pathExists(path) && !fs.isFile(path) && fs.isDir(path) ==>
      forall f :: f in Listing(fs, path, recursive).value <==>
        f in fs.walk(path, recursive) && fs.isFile(f) && IsSupportedExtension(f)
  {
    SupportedFilesSpec(fs, fs.walk(path, recursive));
  }

  /**
   * Files the plain-text extractor could read but the scanner does not list:
   * `json`, `xml`, `html` and `log` never appear in a listing.
   */
  lemma TextOnlyTypesNeverListed(fs: Fs, path: string, recursive: bool, f: string)
    requires Extension(f).Some? && Lower(Extension(f).value) in TextOnlyTypes
    ensures Supports(PlainText, Extension(f).value)
    ensures Listing(fs, path, recursive).Ok? ==> f !in Listing(fs, path, recursive).value
  {
    TextOnlyTypesNotScanned(Lower(Extension(f).value));
    assert !IsSupportedExtension(f);
    ListingSpec(fs, path, recursive);
  }

  /** The types the plain-text extractor reads that are not in the scanner's list. */
  const TextOnlyTypes: seq<string> := ["json", "xml", "html", "log"]

  lemma TextOnlyTypesNotScanned(t: string)
    requires t in TextOnlyTypes
    ensures t in PlainTextTypes && t !in ScannerTypes
  {
  }

  /** Every listed file has an extractor under the standard registration. */
  lemma ListedFilesHaveExtractor(fs: Fs, path: string, recursive: bool, f: string)
    requires Listing(fs, path, recursive).Ok? && f in Listing(fs, path, recursive).value
    ensures FirstSupporting(StandardExtractors, LookupType(f)).Some?
  {
    ListingSpec(fs, path, recursive);
    var t := LookupType(f);
    LowerIdempotent(Extension(f).value);
    StandardDispatch(t);
    assert t in ScannerTypes;
    assert t in PlainTextTypes || t == "pdf" || t == "docx";
  }

  /** The walk loop of `scan_path`. */
  method CollectSupported(fs: Fs, entries: seq<string>) returns (toScan: seq<string>)
    ensures toScan == SupportedFiles(fs, entries)
  {
    toScan := [];
    for i := 0 to |entries|
      invariant toScan == SupportedFiles(fs, entries[..i])
    {
      SupportedFilesStep(fs, entries, i);
      var e := entries[i];
      if fs.isFile(e) && IsSupportedExtension(e) {
        toScan := toScan + [e];
      }
    }
    assert entries[..|entries|] == entries;
  }

  /** The copy loop of `scan_path`: same files, same order, one progress step each. */
  method CopyWithProgress(toScan: seq<string>) returns (paths: seq<string>, updates: nat)
    ensures paths == toScan
    ensures updates == |toScan|
  {
    var bar := new ProgressBar(|toScan|);
    paths := [];
    for i := 0 to |toScan|
      invariant paths == toScan[..i]
      invariant bar.updates == i
    {
      paths := paths + [toScan[i]];
      bar.Update();
    }
    bar.Finish();
    assert toScan[..|toScan|] == toScan;
    updates := bar.updates;
  }

  class FileSystemScanner {
    const manager: ExtractorManager

    /** `new` */
    constructor(manager: ExtractorManager)
      ensures this.manager == manager
    {
      this.manager := manager;
    }

    /**
     * `scan_path`: the files are collected first, then copied one by one
     * into the result while the progress bar advances once per file.
     */
    method ScanPath(fs: Fs, path: string, recursive: bool) returns (r: Result<seq<string>, Error>)
      ensures r == Listing(fs, path, recursive)
    {
      if !fs.pathExists(path) {
        return Err(IoError(NotFound, PathNotFoundPrefix + path));
      }
      var toScan: seq<string> := [];
      if fs.isFile(path) {
        if IsSupportedExtension(path) {
          toScan := [path];
        }
      } else if fs.isDir(path) {
        toScan := CollectSupported(fs, fs.walk(path, recursive));
      }
      var paths, updates := CopyWithProgress(toScan);
      return Ok(paths);
    }

    /**
     * `process_file`: a missing file is an error; otherwise the extracted
     * text, with the path, or the extractor's error as it is.
     */
    function ProcessFile(fs: Fs, path: string): (r: Result<FileInfo, Error>)
      reads manager
      ensures !fs.pathExists(path) ==> r == Err(IoError(NotFound, FileNotFoundPrefix + path))
      ensures fs.pathExists(path) ==> (r.Ok? <==> manager.Extract(fs, path).Ok?)
      ensures fs.pathExists(path) && r.Ok? ==> r.value == FileInfo(path, manager.Extract(fs, path).value)
      ensures fs.pathExists(path) && r.Err? ==> r.error == manager.Extract(fs, path).error
    {
      if !fs.pathExists(path) then Err(IoError(NotFound, FileNotFoundPrefix + path))
      else
        match manager.Extract(fs, path)
        case Ok(content) => Ok(FileInfo(path, content))
        case Err(e) => Err(e)
    }
  }
}
