/** The upload step: the user picks an architecture diagram, has it
    analysed, reviews the five extracted lists, and continues with them. */
module DiagramUpload {
  import opened Wrappers
  import opened Text
  import Lists

  /** The media types the step accepts. */
  const ValidTypes: seq<string> := ["image/png", "image/jpeg", "image/gif", "image/webp"]

  /** The error shown for a file of any other type. */
  const InvalidTypeError := "Please upload a valid image file (PNG, JPEG, GIF, or WebP)"

  /** The status shown while the analysis runs with `provider`. */
  function AnalyzingStatus(provider: string): string {
    "Analyzing architecture diagram (" + provider + ")..."
  }

  /** A chosen file: its name and its media type. */
  datatype FileInfo = FileInfo(name: string, mediaType: string)

  /** The five editable lists of an analysis. */
  datatype ListName = EntryPoints | DataFlows | SecurityBoundaries | PublicResources | PrivateResources

  datatype AnalysisLists = AnalysisLists(
    entryPoints: seq<string>,
    dataFlows: seq<string>,
    securityBoundaries: seq<string>,
    publicResources: seq<string>,
    privateResources: seq<string>)
  {
    function Get(which: ListName): seq<string> {
      match which
      case EntryPoints => entryPoints
      case DataFlows => dataFlows
      case SecurityBoundaries => securityBoundaries
      case PublicResources => publicResources
      case PrivateResources => privateResources
    }
  }

  /** What the analysis service returns; each field may be missing. */
  datatype DiagramAnalysis = DiagramAnalysis(
    sessionId: Option<string>,
    entryPoints: Option<seq<string>>,
    dataFlows: Option<seq<string>>,
    securityBoundaries: Option<seq<string>>,
    publicResources: Option<seq<string>>,
    privateResources: Option<seq<string>>)

  /** The outcome of the call to the analysis service. */
  datatype Outcome = Succeeded(analysis: DiagramAnalysis) | Failed(message: string)

  /** The lists of an analysis, each missing one as `[]`. */
  function ListsOf(a: DiagramAnalysis): (r: AnalysisLists)
    ensures forall which :: r.Get(which) == ListOf(a, which).GetOr([])
  {
    AnalysisLists(
      a.entryPoints.GetOr([]), a.dataFlows.GetOr([]), a.securityBoundaries.GetOr([]),
      a.publicResources.GetOr([]), a.privateResources.GetOr([]))
  }

  /** One list of an analysis, as the service returned it. */
  function ListOf(a: DiagramAnalysis, which: ListName): Option<seq<string>> {
    match which
    case EntryPoints => a.entryPoints
    case DataFlows => a.dataFlows
    case SecurityBoundaries => a.securityBoundaries
    case PublicResources => a.publicResources
    case PrivateResources => a.privateResources
  }

  /** What the step hands on. */
  datatype UploadResult = UploadResult(
    sessionId: Option<string>,
    analysis: AnalysisLists,
    imageBase64: Option<string>,
    mediaType: string)

  /** The base64 payload of a data URL: the piece after its first comma and
      before any second one; none when the URL has no comma. */
  function Base64Of(dataUrl: string): (r: Option<string>)
    ensures r.None? <==> ',' !in dataUrl
    ensures r.Some? ==> ',' !in r.value
  {
    var pieces := Split(dataUrl, ',');
    if |pieces| >= 2 then Some(pieces[1]) else None
  }

  /** A data URL `header,payload` yields its payload. */
  lemma Base64OfDataUrl(header: string, payload: string)
    requires ',' !in header && ',' !in payload
    ensures Base64Of(header + "," + payload) == Some(payload)
  {
    var s := header + "," + payload;
    assert s[|header|] == ',';
    var i := FirstIndexOf(s, ',');
    assert i == |header|;
    assert s[..i] == header;
    assert s[i + 1..] == payload;
    assert Split(s, ',') == [header] + Split(payload, ',');
  }

  /** The upload step's state. */
  class Uploader {
    var file: Option<FileInfo>
    var preview: Option<string>
    var error: Option<string>
    var status: Option<string>
    var isDragging: bool
    var imageBase64: Option<string>
    var loading: bool
    var analyzed: bool
    var sessionId: Option<string>
    var entryPoints: seq<string>
    var dataFlows: seq<string>
    var securityBoundaries: seq<string>
    var publicResources: seq<string>
    var privateResources: seq<string>

    /** A kept file always has an accepted type, and the lists are shown
        only once there is a file. */
    ghost predicate Valid()
      reads this
    {
      && (file.Some? ==> file.value.mediaType in ValidTypes)
      && (analyzed ==> file.Some?)
    }

    /** The five lists as they stand. */
    function Extracted(): AnalysisLists
      reads this
    {
      AnalysisLists(entryPoints, dataFlows, securityBoundaries, publicResources, privateResources)
    }

    /** Everything except the lists, the session and the `analyzed` flag. */
    function IntakeState(): Intake
      reads this
    {
      Intake(file, preview, error, status, isDragging, imageBase64, loading)
    }

    /** The initial state: nothing chosen, nothing analysed, empty lists. */
    constructor ()
      ensures Valid()
      ensures IntakeState() == Intake(None, None, None, None, false, None, false)
      ensures !analyzed && sessionId.None?
      ensures Extracted() == AnalysisLists([], [], [], [], [])
    {
      file, preview, error, status := None, None, None, None;
      isDragging, imageBase64, loading := false, None, false;
      analyzed, sessionId := false, None;
      entryPoints, dataFlows, securityBoundaries := [], [], [];
      publicResources, privateResources := [], [];
    }

    /** `handleFile`: no file changes nothing; a file of another type only
        sets the error; an accepted file is kept, clears the error and
        hides the previous analysis. The preview and the base64 payload
        follow when the file has been read (`OnFileLoaded`). */
    method HandleFile(selected: Option<FileInfo>)
      requires Valid()
      modifies this
      ensures Valid()
      ensures selected.None? ==> IntakeState() == old(IntakeState()) && analyzed == old(analyzed)
      ensures selected.Some? && selected.value.mediaType !in ValidTypes ==>
        IntakeState() == old(IntakeState()).(error := Some(InvalidTypeError)) && analyzed == old(analyzed)
      ensures selected.Some? && selected.value.mediaType in ValidTypes ==>
        IntakeState() == old(IntakeState()).(file := selected, error := None) && !analyzed
      ensures sessionId == old(sessionId) && Extracted() == old(Extracted())
    {
      if selected.None? {
        return;
      }
      if selected.value.mediaType !in ValidTypes {
        error := Some(InvalidTypeError);
        return;
      }
      file := selected;
      error := None;
      analyzed := false;
    }

    /** The file reader's `onload`: the data URL becomes the preview and its
        payload the base64 image. */
    method OnFileLoaded(dataUrl: string)
      requires Valid()
      modifies this
      ensures Valid()
      ensures IntakeState() == old(IntakeState()).(preview := Some(dataUrl), imageBase64 := Base64Of(dataUrl))
      ensures analyzed == old(analyzed) && sessionId == old(sessionId) && Extracted() == old(Extracted())
    {
      preview := Some(dataUrl);
      imageBase64 := Base64Of(dataUrl);
    }

    /** `onDragOver` and `onDragLeave`. */
    method SetDragging(dragging: bool)
      requires Valid()
      modifies this
      ensures Valid()
      ensures IntakeState() == old(IntakeState()).(isDragging := dragging)
      ensures analyzed == old(analyzed) && sessionId == old(sessionId) && Extracted() == old(Extracted())
    {
      isDragging := dragging;
    }

    /** `handleDrop`: ends the drag and handles the first dropped file. */
    method HandleDrop(dropped: Option<FileInfo>)
      requires Valid()
      modifies this
      ensures Valid()
      ensures dropped.None? ==> IntakeState() == old(IntakeState()).(isDragging := false) && analyzed == old(analyzed)
      ensures dropped.Some? && dropped.value.mediaType !in ValidTypes ==>
        IntakeState() == old(IntakeState()).(isDragging := false, error := Some(InvalidTypeError)) && analyzed == old(analyzed)
      ensures dropped.Some? && dropped.value.mediaType in ValidTypes ==>
        IntakeState() == old(IntakeState()).(isDragging := false, file := dropped, error := None) && !analyzed
      ensures sessionId == old(sessionId) && Extracted() == old(Extracted())
    {
      isDragging := false;
      HandleFile(dropped);
    }

    /** Whether `handleAnalyze` goes ahead: a file and a non-empty base64
        payload are both there. */
    predicate CanAnalyze()
      reads this
    {
      file.Some? && imageBase64.Some? && imageBase64.value != ""
    }

    /** `handleAnalyze`, with the service's answer as `outcome`: without a
        file and a payload nothing happens; on success the session and the
        lists (missing ones as `[]`) are taken and shown; on failure the
        service's message becomes the error and the status stays. */
    method HandleAnalyze(provider: string, outcome: Outcome)
      requires Valid()
      modifies this
      ensures Valid()
      ensures !old(CanAnalyze()) ==>
        IntakeState() == old(IntakeState()) && analyzed == old(analyzed) && sessionId == old(sessionId) && Extracted() == old(Extracted())
      ensures old(CanAnalyze()) && outcome.Succeeded? ==>
        && IntakeState() == old(IntakeState()).(error := None, status := None, loading := false)
        && analyzed
        && sessionId == outcome.analysis.sessionId
        && Extracted() == ListsOf(outcome.analysis)
      ensures old(CanAnalyze()) && outcome.Failed? ==>
        && IntakeState() == old(IntakeState()).(error := Some(outcome.message), status := Some(AnalyzingStatus(provider)), loading := false)
        && analyzed == old(analyzed) && sessionId == old(sessionId) && Extracted() == old(Extracted())
    {
      if !CanAnalyze() {
        return;
      }
      loading := true;
      error := None;
      status := Some(AnalyzingStatus(provider));
      match outcome {
        case Succeeded(a) =>
          TakeAnalysis(a);
        case Failed(message) =>
          error := Some(message);
      }
      loading := false;
    }

    /** The successful answer of the service: the session and the lists
        (missing ones as `[]`) are taken, shown, and the status cleared. */
    method TakeAnalysis(a: DiagramAnalysis)
      requires Valid() && file.Some?
      modifies this
      ensures Valid()
      ensures IntakeState() == old(IntakeState()).(status := None)
      ensures analyzed && sessionId == a.sessionId && Extracted() == ListsOf(a)
    {
      SetExtracted(ListsOf(a));
      sessionId, analyzed, status := a.sessionId, true, None;
    }

    /** Replaces all five lists and nothing else. */
    method SetExtracted(l: AnalysisLists)
      requires Valid()
      modifies this
      ensures Valid()
      ensures Extracted() == l
      ensures IntakeState() == old(IntakeState()) && analyzed == old(analyzed) && sessionId == old(sessionId)
    {
      entryPoints, dataFlows, securityBoundaries := l.entryPoints, l.dataFlows, l.securityBoundaries;
      publicResources, privateResources := l.publicResources, l.privateResources;
    }

    /** Replaces one of the five lists and nothing else. */
    method SetList(which: ListName, items: seq<string>)
      requires Valid()
      modifies this
      ensures Valid()
      ensures Extracted().Get(which) == items
      ensures forall other :: other != which ==> Extracted().Get(other) == old(Extracted()).Get(other)
      ensures IntakeState() == old(IntakeState()) && analyzed == old(analyzed) && sessionId == old(sessionId)
    {
      match which
      case EntryPoints => entryPoints := items;
      case DataFlows => dataFlows := items;
      case SecurityBoundaries => securityBoundaries := items;
      case PublicResources => publicResources := items;
      case PrivateResources => privateResources := items;
    }

    /** `updateItem`: writes `value` at `index` of one list. */
    method UpdateItem(which: ListName, index: int, value: string)
      requires Valid()
      modifies this
      ensures Valid()
      ensures Extracted().Get(which) == Lists.UpdateAt(old(Extracted()).Get(which), index, value)
      ensures forall other :: other != which ==> Extracted().Get(other) == old(Extracted()).Get(other)
      ensures IntakeState() == old(IntakeState()) && analyzed == old(analyzed) && sessionId == old(sessionId)
    {
      SetList(which, Lists.UpdateAt(Extracted().Get(which), index, value));
    }

    /** `removeItem`: drops the entry at `index` of one list. */
    method RemoveItem(which: ListName, index: int)
      requires Valid()
      modifies this
      ensures Valid()
      ensures Extracted().Get(which) == Lists.RemoveAt(old(Extracted()).Get(which), index)
      ensures forall other :: other != which ==> Extracted().Get(other) == old(Extracted()).Get(other)
      ensures IntakeState() == old(IntakeState()) && analyzed == old(analyzed) && sessionId == old(sessionId)
    {
      SetList(which, Lists.RemoveAt(Extracted().Get(which), index));
    }

    /** `addItem`: appends one empty entry to one list. */
    method AddItem(which: ListName)
      requires Valid()
      modifies this
      ensures Valid()
      ensures Extracted().Get(which) == old(Extracted()).Get(which) + [""]
      ensures forall other :: other != which ==> Extracted().Get(other) == old(Extracted()).Get(other)
      ensures IntakeState() == old(IntakeState()) && analyzed == old(analyzed) && sessionId == old(sessionId)
    {
      SetList(which, Extracted().Get(which) + [""]);
    }

    /** "Re-upload Diagram": back to the upload view; the lists stay. */
    method Reupload()
      requires Valid()
      modifies this
      ensures Valid()
      ensures !analyzed
      ensures IntakeState() == old(IntakeState()) && sessionId == old(sessionId) && Extracted() == old(Extracted())
    {
      analyzed := false;
    }

    /** `handleContinue`, offered once the lists are shown: the session, the
        lists as edited, the base64 image and the file's media type. */
    method HandleContinue() returns (r: UploadResult)
      requires Valid() && analyzed
      ensures r.sessionId == sessionId && r.analysis == Extracted()
      ensures r.imageBase64 == imageBase64
      ensures file.Some? && r.mediaType == file.value.mediaType
      ensures r.mediaType in ValidTypes
    {
      r := UploadResult(sessionId, Extracted(), imageBase64, file.value.mediaType);
    }
  }

  /** The upload-side fields of the step. */
  datatype Intake = Intake(
    file: Option<FileInfo>,
    preview: Option<string>,
    error: Option<string>,
    status: Option<string>,
    isDragging: bool,
    imageBase64: Option<string>,
    loading: bool)

  /** Adding an entry and removing it again gives the list back. */
  lemma AddThenRemoveItem(items: seq<string>)
    ensures Lists.RemoveAt(items + [""], |items|) == items
  {
    Lists.RemoveAppended(items, "");
  }
}
