/**
 * Text extraction: the three extractors (`PlainTextExtractor`,
 * `PdfExtractor`, `DocxExtractor`) and the `ExtractorManager` that picks the
 * first registered extractor supporting a file's lowercased extension.
 */
module Extraction {
  import opened Wrappers
  import opened Text
  import opened Errors
  import opened Paths
  import opened FileSystem

  datatype Extractor = PlainText | Pdf | Docx

  /** The extensions `PlainTextExtractor` reads. */
  const PlainTextTypes: seq<string> := ["txt", "md", "csv", "json", "xml", "html", "log"]

  /** The extensions `list_supported_extensions` asks about, in its order. */
  const ListedTypes: seq<string> := ["txt", "md", "csv", "pdf", "docx"]

  const NoExtractorPrefix := "No extractor found for file type: "

  /** `supports`: each extractor lowercases the file type before comparing. */
  function Supports(e: Extractor, fileType: string): bool
  {
    match e
    case PlainText => Lower(fileType) in PlainTextTypes
    case Pdf => Lower(fileType) == "pdf"
    case Docx => Lower(fileType) == "docx"
  }

  /** Case does not matter to any extractor. */
  lemma SupportsIgnoresCase(e: Extractor, fileType: string)
    ensures Supports(e, fileType) == Supports(e, Lower(fileType))
  {
    LowerIdempotent(fileType);
  }

  /** Which lowercase extensions each extractor accepts. */
  lemma SupportsExactly(fileType: string)
    ensures Supports(PlainText, fileType) <==>
      Lower(fileType) in {"txt", "md", "csv", "json", "xml", "html", "log"}
    ensures Supports(Pdf, fileType) <==> Lower(fileType) == "pdf"
    ensures Supports(Docx, fileType) <==> Lower(fileType) == "docx"
  {
  }

  /** No file type is claimed by two different extractors, whatever its case. */
  lemma SupportsDisjoint(e1: Extractor, e2: Extractor, fileType: string)
    requires Supports(e1, fileType) && Supports(e2, fileType)
    ensures e1 == e2
  {
  }

  /** The plain-text extractor does not take PDF or DOCX files, in any case. */
  lemma PlainTextRejectsDocuments(fileType: string)
    requires Lower(fileType) == "pdf" || Lower(fileType) == "docx"
    ensures !Supports(PlainText, fileType)
    ensures Supports(Pdf, fileType) || Supports(Docx, fileType)
  {
  }

  /**
   * `extract`: plain text is read from disk with every failure reported as
   * an I/O error; PDF and DOCX text come from their libraries, a PDF
   * failure becoming a PDF extraction error.
   */
  function ExtractWith(e: Extractor, fs: Fs, path: string): (r: Result<string, Error>)
    ensures e == PlainText && r.Err? ==> r.error.IoError?
    ensures e == PlainText && r.Err? ==>
      fs.readToString(path).Err? &&
      r.error == IoError(fs.readToString(path).error.kind, fs.readToString(path).error.message)
    ensures e == PlainText && r.Ok? ==> fs.readToString(path) == Ok(r.value)
    ensures e == Pdf && r.Err? ==> fs.pdfText(path).Err? && r.error == PdfExtractError(fs.pdfText(path).error)
    ensures e == Pdf && r.Ok? ==> fs.pdfText(path) == Ok(r.value)
    ensures e == Docx ==> r == fs.docxText(path)
  {
    match e
    case PlainText =>
      (match fs.readToString(path)
       case Ok(s) => Ok(s)
       case Err(f) => Err(IoError(f.kind, f.message)))
    case Pdf =>
      (match fs.pdfText(path)
       case Ok(s) => Ok(s)
       case Err(m) => Err(PdfExtractError(m)))
    case Docx => fs.docxText(path)
  }

  /** The extension used for the lookup: lowercased, and empty when there is none. */
  function LookupType(path: string): string
  {
    Lower(Extension(path).GetOr(""))
  }

  /** Index of the first extractor that supports `fileType`. */
  function FirstSupporting(es: seq<Extractor>, fileType: string): (r: Option<nat>)
    ensures r.Some? ==> r.value < |es| && Supports(es[r.value], fileType)
    ensures r.Some? ==> forall j :: 0 <= j < r.value ==> !Supports(es[j], fileType)
    ensures r.None? ==> forall j :: 0 <= j < |es| ==> !Supports(es[j], fileType)
  {
    if es == [] then None
    else if Supports(es[0], fileType) then Some(0)
    else
      match FirstSupporting(es[1..], fileType)
      case None => None
      case Some(i) => Some(i + 1)
  }

  /** `es[i]` supports `fileType` and no extractor before it does. */
  predicate IsFirstSupporting(es: seq<Extractor>, fileType: string, i: nat)
  {
    i < |es| && Supports(es[i], fileType) && forall j :: 0 <= j < i ==> !Supports(es[j], fileType)
  }

  /** Whether some extractor supports `fileType`. */
  predicate AnySupports(es: seq<Extractor>, fileType: string)
  {
    exists j :: 0 <= j < |es| && Supports(es[j], fileType)
  }

  /** The listed extensions some extractor supports, in listing order. */
  function SupportedAmong(types: seq<string>, es: seq<Extractor>): seq<string>
  {
    if types == [] then []
    else
      var last := types[|types| - 1];
      SupportedAmong(types[..|types| - 1], es) + (if AnySupports(es, last) then [last] else [])
  }

  lemma SupportedAmongStep(types: seq<string>, es: seq<Extractor>, i: nat)
    requires i < |types|
    ensures SupportedAmong(types[..i + 1], es) ==
      SupportedAmong(types[..i], es) + (if AnySupports(es, types[i]) then [types[i]] else [])
  {
    assert types[..i + 1][..i] == types[..i];
  }

  /** A listing holds exactly the candidates some extractor supports, each once, in candidate order. */
  lemma {:induction false} SupportedAmongSpec(types: seq<string>, es: seq<Extractor>)
    ensures forall t :: t in SupportedAmong(types, es) <==> t in types && AnySupports(es, t)
    ensures |SupportedAmong(types, es)| <= |types|
  {
    if types != [] {
      var n := |types| - 1;
      SupportedAmongSpec(types[..n], es);
      assert types == types[..n] + [types[n]];
    }
  }

  lemma {:induction false} SupportedAmongDistinct(types: seq<string>, es: seq<Extractor>)
    requires forall a, b :: 0 <= a < b < |types| ==> types[a] != types[b]
    ensures forall a, b :: 0 <= a < b < |SupportedAmong(types, es)| ==>
      SupportedAmong(types, es)[a] != SupportedAmong(types, es)[b]
  {
    if types != [] {
      var n := |types| - 1;
      var prev := types[..n];
      SupportedAmongDistinct(prev, es);
      SupportedAmongSpec(prev, es);
      var r := SupportedAmong(types, es);
      var p := SupportedAmong(prev, es);
      forall a, b | 0 <= a < b < |r|
        ensures r[a] != r[b]
      {
        if b == |p| {
          assert r[a] == p[a] && r[a] in prev;
          assert r[b] == types[n];
        } else {
          assert r[a] == p[a] && r[b] == p[b];
        }
      }
    }
  }

  class ExtractorManager {
    var extractors: seq<Extractor>

    /** `new`: nothing registered. */
    constructor()
      ensures extractors == []
    {
      extractors := [];
    }

    /** `register`: appends, so registration order is kept. */
    method Register(e: Extractor)
      modifies this
      ensures extractors == old(extractors) + [e]
    {
      extractors := extractors + [e];
    }

    /**
     * `extract`: the first registered extractor that supports the lowercased
     * extension does the work and its result is returned as it is; with none,
     * the error names the extension.
     */
    function Extract(fs: Fs, path: string): (r: Result<string, Error>)
      reads this
      ensures forall i: nat :: IsFirstSupporting(extractors, LookupType(path), i) ==>
        r == ExtractWith(extractors[i], fs, path)
      ensures !AnySupports(extractors, LookupType(path)) ==>
        r == Err(Other(NoExtractorPrefix + LookupType(path)))
    {
      match FirstSupporting(extractors, LookupType(path))
      case Some(i) => ExtractWith(extractors[i], fs, path)
      case None => Err(Other(NoExtractorPrefix + LookupType(path)))
    }

    /**
     * `list_supported_extensions`: for each candidate extension in turn, the
     * extractors are asked until one supports it.
     */
    method ListSupportedExtensions() returns (exts: seq<string>)
      ensures exts == SupportedAmong(ListedTypes, extractors)
    {
      exts := [];
      for i := 0 to |ListedTypes|
        invariant exts == SupportedAmong(ListedTypes[..i], extractors)
      {
        var ext := ListedTypes[i];
        SupportedAmongStep(ListedTypes, extractors, i);
        var j := 0;
        while j < |extractors|
          invariant j <= |extractors|
          invariant forall k :: 0 <= k < j ==> !Supports(extractors[k], ext)
        {
          if Supports(extractors[j], ext) {
            break;
          }
          j := j + 1;
        }
        if j < |extractors| {
          exts := exts + [ext];
        }
      }
      assert ListedTypes[..|ListedTypes|] == ListedTypes;
    }
  }

  /** Two paths whose extensions agree up to case get the same treatment. */
  lemma ExtractIgnoresCase(m: ExtractorManager, fs: Fs, p1: string, p2: string)
    requires LookupType(p1) == LookupType(p2)
    requires forall e :: ExtractWith(e, fs, p1) == ExtractWith(e, fs, p2)
    ensures m.Extract(fs, p1) == m.Extract(fs, p2)
  {
  }

  /** The registration the program makes: plain text, then PDF, then DOCX. */
  const StandardExtractors: seq<Extractor> := [PlainText, Pdf, Docx]

  /** A listing of candidates that are all supported is the candidates themselves. */
  lemma {:induction false} SupportedAmongAll(types: seq<string>, es: seq<Extractor>)
    requires forall k :: 0 <= k < |types| ==> AnySupports(es, types[k])
    ensures SupportedAmong(types, es) == types
  {
    if types != [] {
      var n := |types| - 1;
      SupportedAmongAll(types[..n], es);
      assert types == types[..n] + [types[n]];
    }
  }

  /** With the standard registration all five candidate extensions are listed. */
  lemma StandardListing()
    ensures SupportedAmong(ListedTypes, StandardExtractors) == ListedTypes
  {
    var es := StandardExtractors;
    var t := ListedTypes;
    forall k | 0 <= k < |t|
      ensures AnySupports(es, t[k])
    {
      LowerFixed(t[k]);
      if k < 3 {
        assert Supports(es[0], t[k]);
      } else if k == 3 {
        assert Supports(es[1], t[k]);
      } else {
        assert Supports(es[2], t[k]);
      }
    }
    SupportedAmongAll(t, es);
  }

  /** With the standard registration each file type is served by the one extractor that claims it. */
  lemma StandardDispatch(fileType: string)
    ensures Lower(fileType) in PlainTextTypes ==> FirstSupporting(StandardExtractors, fileType) == Some(0)
    ensures Lower(fileType) == "pdf" ==> FirstSupporting(StandardExtractors, fileType) == Some(1)
    ensures Lower(fileType) == "docx" ==> FirstSupporting(StandardExtractors, fileType) == Some(2)
    ensures Lower(fileType) !in PlainTextTypes && Lower(fileType) != "pdf" && Lower(fileType) != "docx" ==>
      FirstSupporting(StandardExtractors, fileType) == None
  {
    var es := StandardExtractors;
    assert es[1..] == [Pdf, Docx] && es[1..][1..] == [Docx] && es[1..][1..][1..] == [];
    if Lower(fileType) !in PlainTextTypes && Lower(fileType) != "pdf" && Lower(fileType) != "docx" {
      assert FirstSupporting(es[1..][1..][1..], fileType) == None;
      assert FirstSupporting(es[1..][1..], fileType) == None;
      assert FirstSupporting(es[1..], fileType) == None;
      assert !Supports(es[0], fileType);
    } else if Lower(fileType) == "docx" {
      assert !Supports(es[0], fileType) && !Supports(es[1], fileType);
      assert FirstSupporting(es[1..][1..], fileType) == Some(0);
      assert FirstSupporting(es[1..], fileType) == Some(1);
    }
  }
}
