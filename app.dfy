/** The wizard that drives a threat-modelling session through its four
    steps (upload, validate, select template, report), keeps a snapshot of
    the session in the browser's key-value storage, and restores it when the
    page is opened again. */
module App {
  import opened Wrappers
  import DiagramUpload
  import ComponentValidator
  import ThreatMatrix

  /** The storage key of the session snapshot. */
  const StorageKey := "auspex_session"

  /** The provider used when none is chosen or stored. */
  const DefaultProvider := "gemini"

  /** The ids of the four steps of the stepper, in order. */
  const StepIds: seq<int> := [1, 2, 3, 4]

  datatype View = Analyze | Prompts

  /** The uploaded image kept for later use. */
  datatype ImageData = ImageData(base64: Option<string>, mediaType: string)

  /** The seven persisted fields of the session. */
  datatype Snapshot = Snapshot(
    currentStep: int,
    sessionId: Option<string>,
    analysisData: Option<DiagramUpload.UploadResult>,
    validatedData: Option<ComponentValidator.ValidatedData>,
    threats: Option<seq<ThreatMatrix.Threat>>,
    provider: string,
    imageData: Option<ImageData>)

  /** A snapshot as read back from storage: any field may be missing. */
  datatype StoredSnapshot = StoredSnapshot(
    currentStep: Option<int>,
    sessionId: Option<string>,
    analysisData: Option<DiagramUpload.UploadResult>,
    validatedData: Option<ComponentValidator.ValidatedData>,
    threats: Option<seq<ThreatMatrix.Threat>>,
    provider: Option<string>,
    imageData: Option<ImageData>)

  /** The storage: the text under each key, read back as a snapshot, or
      `None` when it does not parse as one. */
  type Entries = map<string, Option<StoredSnapshot>>

  /** What writing a snapshot stores: null fields are kept as null. */
  function Encode(s: Snapshot): StoredSnapshot {
    StoredSnapshot(Some(s.currentStep), s.sessionId, s.analysisData, s.validatedData,
                   s.threats, Some(s.provider), s.imageData)
  }

  /** A non-empty string, as `x || null` keeps it. */
  function NonEmpty(s: Option<string>): Option<string> {
    if s.Some? && s.value != "" then s else None
  }

  /** The state the restore effect applies: a missing or zero step becomes
      1, a missing or empty provider `gemini`, a missing or empty session id
      null; the other fields are taken as stored. */
  function Restore(st: StoredSnapshot): (s: Snapshot)
    ensures s.currentStep != 0 && s.provider != "" && s.sessionId != Some("")
  {
    Snapshot(
      if st.currentStep.Some? && st.currentStep.value != 0 then st.currentStep.value else 1,
      NonEmpty(st.sessionId), st.analysisData, st.validatedData, st.threats,
      if st.provider.Some? && st.provider.value != "" then st.provider.value else DefaultProvider,
      st.imageData)
  }

  /** A state that restoring its own snapshot reproduces exactly. */
  predicate Restorable(s: Snapshot) {
    s.currentStep != 0 && s.provider != "" && s.sessionId != Some("")
  }

  /** Restoring a written snapshot gives the state back exactly when no
      field holds a falsy value that the restore replaces. */
  lemma RestoreEncode(s: Snapshot)
    ensures Restore(Encode(s)) == s <==> Restorable(s)
  {
    var r := Restore(Encode(s));
    if s.sessionId == Some("") {
      assert r.sessionId != s.sessionId;
    }
  }

  /** Whatever was restored is written back unchanged and restores to
      itself. */
  lemma RestoreIsStable(st: StoredSnapshot)
    ensures Restorable(Restore(st))
    ensures Restore(Encode(Restore(st))) == Restore(st)
  {
    RestoreEncode(Restore(st));
  }

  /** The guard of the save effect: some stage data is there. */
  predicate ShouldPersist(s: Snapshot) {
    NonEmpty(s.sessionId).Some? || s.analysisData.Some? || s.validatedData.Some? || s.threats.Some?
  }

  /** `saveToStorage`: the snapshot replaces the key's entry; a failing
      storage keeps everything as it was. */
  function Saved(entries: Entries, available: bool, s: Snapshot): Entries {
    if available then entries[StorageKey := Some(Encode(s))] else entries
  }

  /** `clearStorage`: the key's entry is removed; a failing storage keeps
      everything as it was. */
  function Cleared(entries: Entries, available: bool): Entries {
    if available then entries - {StorageKey} else entries
  }

  /** `loadFromStorage`: the parsed entry, or null when the key is missing,
      the entry does not parse, or the storage fails. */
  function LoadedFrom(entries: Entries, available: bool): Option<StoredSnapshot> {
    if available && StorageKey in entries then entries[StorageKey] else None
  }

  /** The save effect after a state change. */
  function Persisted(entries: Entries, available: bool, s: Snapshot): Entries {
    if ShouldPersist(s) then Saved(entries, available, s) else entries
  }

  /** After a save the key reads back as the snapshot; other keys are not
      touched. */
  lemma LoadAfterSave(entries: Entries, s: Snapshot, k: string)
    ensures LoadedFrom(Saved(entries, true, s), true) == Some(Encode(s))
    ensures k != StorageKey && k in entries ==> k in Saved(entries, true, s) && Saved(entries, true, s)[k] == entries[k]
  {
  }

  /** After a clear the key reads back as null; other keys are not touched. */
  lemma LoadAfterClear(entries: Entries, available: bool, k: string)
    ensures LoadedFrom(Cleared(entries, available), available) == None
    ensures k != StorageKey ==> (k in Cleared(entries, available) <==> k in entries)
  {
  }

  /** A persisted session survives a reload: the restore effect applied to
      what the save effect stored gives the same state. */
  lemma PersistedSessionSurvivesReload(entries: Entries, s: Snapshot)
    requires ShouldPersist(s) && Restorable(s)
    ensures LoadedFrom(Persisted(entries, true, s), true).Some?
    ensures Restore(LoadedFrom(Persisted(entries, true, s), true).value) == s
  {
    RestoreEncode(s);
  }

  /** The state `handleReset` leaves: step 1, no stage data, the provider
      kept. */
  function ResetOf(s: Snapshot): (r: Snapshot) {
    Snapshot(1, None, None, None, None, s.provider, None)
  }

  /** The reset state is never written back, so after a reset the key stays
      removed. */
  lemma ResetIsNotPersisted(entries: Entries, available: bool, s: Snapshot)
    ensures !ShouldPersist(ResetOf(s))
    ensures Persisted(Cleared(entries, available), available, ResetOf(s)) == Cleared(entries, available)
    ensures LoadedFrom(Persisted(Cleared(entries, available), available, ResetOf(s)), available) == None
  {
  }

  /** How the stepper shows a step. */
  datatype StepState = Active | Complete | Pending

  /** `getStepStyle`. */
  function StepStateOf(stepId: int, currentStep: int): StepState {
    if stepId == currentStep then Active
    else if stepId < currentStep then Complete
    else Pending
  }

  /** The order of the states along the stepper. */
  function Rank(st: StepState): nat {
    match st
    case Complete => 2
    case Active => 1
    case Pending => 0
  }

  /** The stepper reads complete, then active, then pending from left to
      right; for a current step among the four, that step is the one active
      step and exactly the steps before it are complete. */
  lemma StepperShowsProgress(currentStep: int)
    ensures forall i, j :: 0 <= i < j < |StepIds| ==>
      Rank(StepStateOf(StepIds[i], currentStep)) >= Rank(StepStateOf(StepIds[j], currentStep))
    ensures forall i :: 0 <= i < |StepIds| ==>
      (StepStateOf(StepIds[i], currentStep) == Active <==> StepIds[i] == currentStep)
    ensures 1 <= currentStep <= |StepIds| ==>
      StepStateOf(StepIds[currentStep - 1], currentStep) == Active
      && forall i :: 0 <= i < |StepIds| ==> (StepStateOf(StepIds[i], currentStep) == Complete <==> i < currentStep - 1)
  {
    forall i, j | 0 <= i < j < |StepIds|
      ensures Rank(StepStateOf(StepIds[i], currentStep)) >= Rank(StepStateOf(StepIds[j], currentStep))
    {
      assert StepIds[i] < StepIds[j];
    }
    forall i | 0 <= i < |StepIds| ensures StepIds[i] == i + 1 {
    }
  }

  /** What the main area shows. */
  datatype Screen = PromptEditorScreen | UploadScreen | ValidatorScreen | TemplateScreen | ReportScreen | StepperOnly

  /** The render guards: the prompt editor on the prompts view; otherwise
      the screen of the current step when that step's input is there. */
  function ScreenOf(view: View, s: Snapshot): Screen {
    if view == Prompts then PromptEditorScreen
    else if s.currentStep == 1 then UploadScreen
    else if s.currentStep == 2 && s.analysisData.Some? then ValidatorScreen
    else if s.currentStep == 3 && s.validatedData.Some? then TemplateScreen
    else if s.currentStep == 4 && s.threats.Some? then ReportScreen
    else StepperOnly
  }

  /** Each step's screen shows exactly when the analysis view is on, the
      step is current and its input is there. */
  lemma ScreenGuards(view: View, s: Snapshot)
    ensures ScreenOf(view, s) == UploadScreen <==> view == Analyze && s.currentStep == 1
    ensures ScreenOf(view, s) == ValidatorScreen <==> view == Analyze && s.currentStep == 2 && s.analysisData.Some?
    ensures ScreenOf(view, s) == TemplateScreen <==> view == Analyze && s.currentStep == 3 && s.validatedData.Some?
    ensures ScreenOf(view, s) == ReportScreen <==> view == Analyze && s.currentStep == 4 && s.threats.Some?
    ensures ScreenOf(view, s) == StepperOnly <==>
      view == Analyze && s.currentStep != 1 && !(s.currentStep == 2 && s.analysisData.Some?)
      && !(s.currentStep == 3 && s.validatedData.Some?) && !(s.currentStep == 4 && s.threats.Some?)
  {
  }

  /** The browser's key-value storage; when it is not `available` every
      access fails. */
  class Store {
    var entries: Entries
    var available: bool

    constructor (entries0: Entries, available0: bool)
      ensures entries == entries0 && available == available0
    {
      entries := entries0;
      available := available0;
    }

    /** `saveToStorage`; a failure is swallowed. */
    method Save(s: Snapshot)
      modifies this
      ensures entries == Saved(old(entries), available, s)
      ensures available == old(available)
    {
      if available {
        entries := entries[StorageKey := Some(Encode(s))];
      }
    }

    /** `loadFromStorage`; a failure reads as null. */
    method Load() returns (r: Option<StoredSnapshot>)
      ensures r == LoadedFrom(entries, available)
      ensures r.Some? ==> available && StorageKey in entries
    {
      if available && StorageKey in entries {
        r := entries[StorageKey];
      } else {
        r := None;
      }
    }

    /** `clearStorage`; a failure is swallowed. */
    method Clear()
      modifies this
      ensures entries == Cleared(old(entries), available)
      ensures available == old(available)
    {
      if available {
        entries := entries - {StorageKey};
      }
    }
  }

  /** The wizard's state. Each handler ends with the save effect that its
      state change triggers. */
  class Wizard {
    var activeView: View
    var currentStep: int
    var isLoading: bool
    var sessionId: Option<string>
    var analysisData: Option<DiagramUpload.UploadResult>
    var validatedData: Option<ComponentValidator.ValidatedData>
    var threats: Option<seq<ThreatMatrix.Threat>>
    var provider: string
    var imageData: Option<ImageData>
    const store: Store

    /** The persisted part of the state. */
    function Current(): Snapshot
      reads this
    {
      Snapshot(currentStep, sessionId, analysisData, validatedData, threats, provider, imageData)
    }

    /** What the main area shows now. */
    function Shown(): Screen
      reads this
    {
      ScreenOf(activeView, Current())
    }

    /** The initial state: analysis view, step 1, nothing loaded, `gemini`. */
    constructor (storage: Store)
      ensures store == storage
      ensures activeView == Analyze && !isLoading
      ensures Current() == Snapshot(1, None, None, None, None, DefaultProvider, None)
    {
      store := storage;
      activeView := Analyze;
      currentStep := 1;
      isLoading := false;
      sessionId, analysisData, validatedData, threats := None, None, None, None;
      provider := DefaultProvider;
      imageData := None;
    }

    /** Replaces the persisted part of the state and runs the save effect. */
    method Commit(s: Snapshot)
      modifies this, store
      ensures Current() == s
      ensures activeView == old(activeView) && isLoading == old(isLoading)
      ensures store.entries == Persisted(old(store.entries), old(store.available), s)
      ensures store.available == old(store.available)
    {
      currentStep, sessionId, analysisData, validatedData := s.currentStep, s.sessionId, s.analysisData, s.validatedData;
      threats, provider, imageData := s.threats, s.provider, s.imageData;
      if ShouldPersist(s) {
        store.Save(s);
      }
    }

    /** The restore effect on mount: a stored snapshot is applied with its
        defaults; without one the state stays as it is. */
    method OnMount()
      modifies this, store
      ensures LoadedFrom(old(store.entries), old(store.available)).Some? ==>
        Current() == Restore(LoadedFrom(old(store.entries), old(store.available)).value)
        && store.entries == Persisted(old(store.entries), old(store.available), Current())
      ensures LoadedFrom(old(store.entries), old(store.available)).None? ==>
        Current() == old(Current()) && store.entries == old(store.entries)
      ensures activeView == old(activeView) && isLoading == old(isLoading)
      ensures store.available == old(store.available)
    {
      var saved := store.Load();
      if saved.Some? {
        Commit(Restore(saved.value));
      }
    }

    /** `handleAnalysisComplete`: takes the session, the analysis and the
        image and moves to step 2, whatever the current step. */
    method HandleAnalysisComplete(data: DiagramUpload.UploadResult)
      modifies this, store
      ensures Current() == old(Current()).(currentStep := 2, sessionId := data.sessionId, analysisData := Some(data),
                                           imageData := Some(ImageData(data.imageBase64, data.mediaType)))
      ensures activeView == old(activeView) && isLoading == old(isLoading)
      ensures store.entries == Persisted(old(store.entries), old(store.available), Current())
      ensures store.available == old(store.available)
    {
      Commit(Current().(currentStep := 2, sessionId := data.sessionId, analysisData := Some(data),
                        imageData := Some(ImageData(data.imageBase64, data.mediaType))));
    }

    /** `handleValidationComplete`: takes the validated data and moves to
        step 3. */
    method HandleValidationComplete(data: ComponentValidator.ValidatedData)
      modifies this, store
      ensures Current() == old(Current()).(currentStep := 3, validatedData := Some(data))
      ensures activeView == old(activeView) && isLoading == old(isLoading)
      ensures store.entries == Persisted(old(store.entries), old(store.available), Current())
      ensures store.available == old(store.available)
    {
      Commit(Current().(currentStep := 3, validatedData := Some(data)));
    }

    /** `handleThreatsGenerated`: takes the threats and moves to step 4. */
    method HandleThreatsGenerated(threatData: seq<ThreatMatrix.Threat>)
      modifies this, store
      ensures Current() == old(Current()).(currentStep := 4, threats := Some(threatData))
      ensures activeView == old(activeView) && isLoading == old(isLoading)
      ensures store.entries == Persisted(old(store.entries), old(store.available), Current())
      ensures store.available == old(store.available)
    {
      Commit(Current().(currentStep := 4, threats := Some(threatData)));
    }

    /** `handleReset`: back to step 1 with no stage data and the stored
        session removed; the provider and the view stay, and the reset state
        is not written back. */
    method HandleReset()
      modifies this, store
      ensures Current() == ResetOf(old(Current()))
      ensures activeView == old(activeView) && isLoading == old(isLoading)
      ensures store.entries == Cleared(old(store.entries), old(store.available))
      ensures LoadedFrom(store.entries, store.available) == None
      ensures store.available == old(store.available)
    {
      var s := ResetOf(Current());
      store.Clear();
      ResetIsNotPersisted(old(store.entries), old(store.available), old(Current()));
      Commit(s);
    }

    /** The validator's Back: step 1, stage data kept. */
    method BackToUpload()
      modifies this, store
      ensures Current() == old(Current()).(currentStep := 1)
      ensures activeView == old(activeView) && isLoading == old(isLoading)
      ensures store.entries == Persisted(old(store.entries), old(store.available), Current())
      ensures store.available == old(store.available)
    {
      Commit(Current().(currentStep := 1));
    }

    /** The template selector's Back: step 2, stage data kept. */
    method BackToComponents()
      modifies this, store
      ensures Current() == old(Current()).(currentStep := 2)
      ensures activeView == old(activeView) && isLoading == old(isLoading)
      ensures store.entries == Persisted(old(store.entries), old(store.available), Current())
      ensures store.available == old(store.available)
    {
      Commit(Current().(currentStep := 2));
    }

    /** The provider toggle. */
    method SelectProvider(p: string)
      modifies this, store
      ensures Current() == old(Current()).(provider := p)
      ensures activeView == old(activeView) && isLoading == old(isLoading)
      ensures store.entries == Persisted(old(store.entries), old(store.available), Current())
      ensures store.available == old(store.available)
    {
      Commit(Current().(provider := p));
    }

    /** The Analyze / Prompts tabs: not part of the snapshot, so nothing is
        written. */
    method SelectView(v: View)
      modifies this
      ensures activeView == v
      ensures Current() == old(Current()) && isLoading == old(isLoading)
    {
      activeView := v;
    }

    /** `setIsLoading`, handed to the upload and template steps. */
    method SetLoading(b: bool)
      modifies this
      ensures isLoading == b
      ensures Current() == old(Current()) && activeView == old(activeView)
    {
      isLoading := b;
    }
  }
}
