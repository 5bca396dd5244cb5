# Auspex front end, modelled in Dafny

Auspex is a web UI for threat modelling. A user uploads an architecture
diagram and has it analysed by an AI provider (Gemini, Claude or Bedrock).
They then review the extracted components, pick a threat template, and get
a STRIDE threat report. A separate view edits the prompts the backend uses.
Those prompts hold locked `<!-- STATIC:LABEL -->…<!-- /STATIC:LABEL -->`
regions that must not be edited.

This project models the five front-end files that hold the logic:

- `prompt_editor.dfy` covers `PromptEditor.jsx`:
  - the static-region regular expression;
  - the `parsePromptSections` loop, as a method proved equal to a recursive specification;
  - `rebuildPromptContent`;
  - the per-prompt sections table and section editing;
  - the read-only titles and the expand toggle.
- `threat_matrix.dfy` covers `ThreatMatrix.jsx`:
  - the two-key filter, category de-duplication, delete by id, the CIA counts and the STRIDE breakdown;
  - a `Report` class holding the component's state.
- `component_validator.dfy` covers `ComponentValidator.jsx`. A `Validator` class holds the feature and component lists and their editing. Two display helpers sit beside it.
- `diagram_upload.dfy` covers `DiagramUpload.jsx`. An `Uploader` class holds file validation, base64 extraction, the analysis result with defaults, the five editable lists and the hand-off payload.
- `app.dfy` covers `App.jsx`:
  - the four-step wizard, as a `Wizard` class;
  - the session snapshot and how it is restored;
  - the save guard;
  - a map-backed `Store` standing in for the browser's storage;
  - the stepper states and the render guards.

Three modules hold shared pieces:

- `text.dfy` holds the JavaScript string primitives the code relies on: `trim` with ECMAScript whitespace, `\w`, `join` and one-character `split`.
- `lists.dfy` holds the array idioms: `filter`, index-based update and removal, first-occurrence de-duplication, counting, and building a map in a loop.
- `wrappers.dfy` holds `Option`, which stands for JavaScript `null`/`undefined`.

On these points the code behaves as follows, and the model follows it:

- **Editable spans are not trimmed.** Editable spans between static regions are kept verbatim. Only the bodies of static regions are trimmed.
- **Re-parsing is not idempotent in general.** Parsing the rebuilt text does not always give back the first parse, because `join('\n')` adds newlines to editable spans. What is proved is that a non-empty list of static sections rebuilds to text that parses back to the same list when every label is a run of word characters, every content is already trimmed, and no content holds its own section's end marker (`PromptEditor.RebuildStaticsRoundTrip`), and that text with no region survives (`PromptEditor.RebuildWithoutRegions`).
- **Back buttons persist.** The save effect depends on `currentStep`, so the Back buttons also write a snapshot.
- **Step handlers do not check the current step.** Only the render guards decide which step's screen is shown.

## Model

| member | source | states |
|---|---|---|
| PromptEditor.WordRunEndIsRun | frontend/src/components/PromptEditor.jsx:172 | the label `(\w+)` is the maximal run of word characters: every character of it is `\w` and the next one is not |
| PromptEditor.OpenerAtIff | frontend/src/components/PromptEditor.jsx:172 | a begin marker with label `l` is read at `p` exactly when `l` is a label and the text holds `<!-- STATIC:l -->` there |
| PromptEditor.FirstCloserIsFirst | frontend/src/components/PromptEditor.jsx:172 | the lazy body ends at the first end marker with the same label, and the search finds none when there is none |
| PromptEditor.MatchAtIff | frontend/src/components/PromptEditor.jsx:172 | a match starts at a position exactly when there is a begin marker with a label there, followed by the first same-label end marker; the captured label, body bounds and match end are those |
| PromptEditor.UnclosedOpenerStartsNoRegion | frontend/src/components/PromptEditor.jsx:172 | a begin marker with no same-label end marker after it starts no region |
| PromptEditor.Exec | frontend/src/components/PromptEditor.jsx:177 | `exec` from `lastIndex` returns a match that starts at or after it |
| PromptEditor.ExecIsLeftmost | frontend/src/components/PromptEditor.jsx:177 | no match starts between `lastIndex` and the match `exec` returns |
| PromptEditor.ExecNoneMeansNoMatch | frontend/src/components/PromptEditor.jsx:177 | when `exec` returns null, no match starts anywhere from `lastIndex` to the end |
| PromptEditor.PushEditable | frontend/src/components/PromptEditor.jsx:179-186 | an editable span is pushed verbatim exactly when its `trim()` is non-empty |
| PromptEditor.ParseSections | frontend/src/components/PromptEditor.jsx:170-219 | the `while (exec)` loop with `lastIndex` computes exactly the parse specification |
| PromptEditor.Parse | frontend/src/components/PromptEditor.jsx:210-218 | the result is never empty |
| PromptEditor.WithoutRegionsOneEditable | frontend/src/components/PromptEditor.jsx:210-216 | the result is exactly one editable section holding the whole content if and only if no region matches anywhere, blank content included |
| PromptEditor.MatchesAreRegions | frontend/src/components/PromptEditor.jsx:177 | every match the loop visits is a well-formed same-label region |
| PromptEditor.MatchesOrdered | frontend/src/components/PromptEditor.jsx:177-196 | the visited matches are in document order and do not overlap |
| PromptEditor.MatchesSkipNothing | frontend/src/components/PromptEditor.jsx:177-196 | no match starts in the stretches the loop skips between and after the visited matches |
| PromptEditor.StaticSectionsAreRegions | frontend/src/components/PromptEditor.jsx:189-194 | there is one static section per visited match, in order, each with the captured label and the trimmed body |
| PromptEditor.ParseNoAdjacentEditables | frontend/src/components/PromptEditor.jsx:177-208 | no two editable sections are ever next to each other |
| PromptEditor.EditablesAreVerbatimGaps | frontend/src/components/PromptEditor.jsx:179-216 | every editable section is an untrimmed span of the content at which no region starts, and it is blank only when it is the whole content |
| PromptEditor.ParseIsLayout | frontend/src/components/PromptEditor.jsx:177-216 | the sections are, in order, the non-blank text from where the scan resumes up to each visited match, that match's static section, and finally the non-blank text after the last match; only when that gives nothing is the whole content one editable section |
| PromptEditor.Rebuild | frontend/src/components/PromptEditor.jsx:222-229 | no sections rebuild to the empty text and one section to its own rendering: the text as it is for an editable section, begin marker, newline, content, newline and end marker for a static one |
| PromptEditor.RebuildAppend | frontend/src/components/PromptEditor.jsx:222-229 | two non-empty lists rebuilt one after the other give the first's text, a newline, then the second's |
| PromptEditor.RebuildWithoutRegions | frontend/src/components/PromptEditor.jsx:222-229 | content with no region rebuilds to itself after parsing |
| PromptEditor.RebuildStaticsRoundTrip | frontend/src/components/PromptEditor.jsx:222-229 | static sections with labels, trimmed content and no own end marker rebuild to text that parses back to the same list |
| PromptEditor.LoneStaticRoundTrip | frontend/src/components/PromptEditor.jsx:225 | one static section rebuilds to begin marker, newline, content, newline, end marker, and parses back to itself |
| PromptEditor.ChangeSection | frontend/src/components/PromptEditor.jsx:266-272 | only the chosen section of the chosen prompt gets the new content; its kind and label, the other sections and the other prompts stay |
| PromptEditor.EditingEditableKeepsStatics | frontend/src/components/PromptEditor.jsx:266-272 | editing an editable section leaves the prompt's static sections as they were |
| PromptEditor.ChangeSectionLastWins | frontend/src/components/PromptEditor.jsx:266-272 | two edits of the same section amount to the last one |
| PromptEditor.SectionsTableLastWins | frontend/src/components/PromptEditor.jsx:254-258 | the sections table has one entry per prompt key, holding the parse of the last prompt with that key |
| PromptEditor.SectionsByKey | frontend/src/components/PromptEditor.jsx:254-258 | the `forEach` loop builds exactly that table |
| PromptEditor.StaticTitle | frontend/src/components/PromptEditor.jsx:326-335 | the title always ends in ` (Read-only)`: fixed titles for `OUTPUT_FORMAT` and `VARIABLES`, otherwise the label itself first |
| PromptEditor.ToggleExpand | frontend/src/components/PromptEditor.jsx:322-324 | toggling collapses exactly when that prompt is the expanded one, and otherwise expands that prompt |
| PromptEditor.ToggleTwice | frontend/src/components/PromptEditor.jsx:322-324 | toggling the same prompt twice restores it when it was expanded and collapses everything otherwise |
| ThreatMatrix.FilteredThreatsSpec | frontend/src/components/ThreatMatrix.jsx:154-158 | a threat is shown exactly when each filter is `all` or equals its field; shown threats keep their order |
| ThreatMatrix.FilterAllShowsEverything | frontend/src/components/ThreatMatrix.jsx:150-158 | with both filters at their initial `all`, every threat is shown |
| ThreatMatrix.CategoriesSpec | frontend/src/components/ThreatMatrix.jsx:160-161 | the filter options are the values the field takes, each once, in order of first occurrence |
| ThreatMatrix.DeleteByIdSpec | frontend/src/components/ThreatMatrix.jsx:163-165 | deleting removes every threat with the id; the others stay in order; the list shrinks by the number of threats with that id |
| ThreatMatrix.DeleteMissingId | frontend/src/components/ThreatMatrix.jsx:163-165 | deleting an id no threat has changes nothing |
| ThreatMatrix.StatsSpec | frontend/src/components/ThreatMatrix.jsx:243-248 | the total is the number of threats; each CIA count is the number of threats with exactly that value; the three counts add up to at most the total |
| ThreatMatrix.DeleteLowersTotal | frontend/src/components/ThreatMatrix.jsx:243-248 | after a delete, the total drops by the number of threats with that id |
| ThreatMatrix.StrideBreakdownSpec | frontend/src/components/ThreatMatrix.jsx:209-212 | one breakdown row per STRIDE category, in category order, each counting the threats of that category; the counts add up to the number of threats |
| ThreatMatrix.Report.constructor | frontend/src/components/ThreatMatrix.jsx:149-152 | the report starts with the given threats and both filters at `all` |
| ThreatMatrix.Report.DeleteThreat | frontend/src/components/ThreatMatrix.jsx:163-165 | the list becomes the list without that id; the filters stay |
| ThreatMatrix.Report.SetStrideFilter | frontend/src/components/ThreatMatrix.jsx:285-286 | only the STRIDE filter changes |
| ThreatMatrix.Report.SetCiaFilter | frontend/src/components/ThreatMatrix.jsx:297-298 | only the CIA filter changes |
| ThreatMatrix.Report.ExportToExcel | frontend/src/components/ThreatMatrix.jsx:167-228 | the workbook holds the stats of all threats, the shown threats as details and the STRIDE breakdown, whose counts add up to the summary total |
| Lists.UpdateAt | frontend/src/components/DiagramUpload.jsx:222-224 | `map((item, i) => i === index ? value : item)` is the list with that index set to the value, and the list unchanged when the index is outside it |
| Lists.RemoveAt | frontend/src/components/ComponentValidator.jsx:150-152 | `filter((_, i) => i !== index)` removes exactly one element for an index in range, keeps the rest in order, and changes nothing otherwise |
| Lists.Distinct | frontend/src/components/ThreatMatrix.jsx:160-161 | `[...new Set(values)]` keeps each value once, in order of first occurrence |
| Text.Split | frontend/src/components/DiagramUpload.jsx:169 | `split(',')` gives comma-free pieces that join back to the text, more than one exactly when there is a comma |
| ComponentValidator.Validator.constructor | frontend/src/components/ComponentValidator.jsx:134-139 | the description and the lists are copied from the input, `''` and `[]` where missing; the inputs are empty and the category is `compute` |
| ComponentValidator.Validator.SetDescription | frontend/src/components/ComponentValidator.jsx:254-255 | only the description changes |
| ComponentValidator.Validator.SetNewFeature | frontend/src/components/ComponentValidator.jsx:276-277 | only the feature input changes |
| ComponentValidator.Validator.SetNewComponentName | frontend/src/components/ComponentValidator.jsx:306-307 | only the component name input changes |
| ComponentValidator.Validator.SetNewComponentCategory | frontend/src/components/ComponentValidator.jsx:313-317 | only the selected category changes, and it stays one of the nine options |
| ComponentValidator.Validator.AddFeature | frontend/src/components/ComponentValidator.jsx:143-148 | a non-blank input is appended trimmed and cleared; a blank one changes nothing; a list of clean entries stays clean |
| ComponentValidator.Validator.RemoveFeature | frontend/src/components/ComponentValidator.jsx:150-152 | exactly the entry at the index is removed |
| ComponentValidator.Validator.AddComponent | frontend/src/components/ComponentValidator.jsx:154-159 | a non-blank name is appended trimmed with the selected category, and the name is cleared while the category stays; a blank name changes nothing |
| ComponentValidator.Validator.RemoveComponent | frontend/src/components/ComponentValidator.jsx:161-163 | exactly the component at the index is removed |
| ComponentValidator.Validator.HandleContinue | frontend/src/components/ComponentValidator.jsx:165-172 | the submitted data are the current description and lists as edited |
| ComponentValidator.TrimmedEntryIsClean | frontend/src/components/ComponentValidator.jsx:143-148 | an entry that survives `trim()` is non-blank, has no surrounding whitespace and is unchanged by a second trim |
| ComponentValidator.ComponentName | frontend/src/components/ComponentValidator.jsx:175-178 | a bare string is shown as it is, an object by its name when the name is present and non-empty, and by its JSON text otherwise |
| ComponentValidator.ComponentCategory | frontend/src/components/ComponentValidator.jsx:180-183 | there is a category exactly when the component is an object that has one, and it is that category |
| ComponentValidator.NewComponentDisplay | frontend/src/components/ComponentValidator.jsx:175-183 | an added component is displayed with the trimmed typed name and the selected category |
| ComponentValidator.RemoveAddedFeature | frontend/src/components/ComponentValidator.jsx:143-152 | removing the feature just added gives the list back |
| DiagramUpload.Base64Of | frontend/src/components/DiagramUpload.jsx:169 | there is no payload exactly when the data URL has no comma, and a payload never holds a comma |
| DiagramUpload.Base64OfDataUrl | frontend/src/components/DiagramUpload.jsx:169 | a data URL `header,payload` yields its payload |
| DiagramUpload.ListsOf | frontend/src/components/DiagramUpload.jsx:191-195 | each list of the analysis is taken as returned, `[]` where missing |
| DiagramUpload.Uploader.constructor | frontend/src/components/DiagramUpload.jsx:136-151 | nothing is chosen or analysed, and the lists are empty |
| DiagramUpload.Uploader.HandleFile | frontend/src/components/DiagramUpload.jsx:153-172 | no file changes nothing; a file of another type only sets the error; an accepted file is kept, clears the error and resets `analyzed`; a kept file always has an accepted type |
| DiagramUpload.Uploader.OnFileLoaded | frontend/src/components/DiagramUpload.jsx:167-170 | the preview becomes the data URL and the image its base64 payload |
| DiagramUpload.Uploader.SetDragging | frontend/src/components/DiagramUpload.jsx:273-274 | only the drag flag changes |
| DiagramUpload.Uploader.HandleDrop | frontend/src/components/DiagramUpload.jsx:174-178 | the drag ends and the dropped file is handled as a chosen one |
| DiagramUpload.Uploader.HandleAnalyze | frontend/src/components/DiagramUpload.jsx:180-204 | without a file and a non-empty payload nothing happens; on success the session and the lists are taken and shown; on failure only the error, the status and the loading flag change |
| DiagramUpload.Uploader.TakeAnalysis | frontend/src/components/DiagramUpload.jsx:190-197 | the session id and the defaulted lists are taken, `analyzed` becomes true and the status is cleared |
| DiagramUpload.Uploader.SetExtracted | frontend/src/components/DiagramUpload.jsx:191-195 | all five lists are replaced and nothing else |
| DiagramUpload.Uploader.SetList | frontend/src/components/DiagramUpload.jsx:222-232 | one list is replaced and the other four stay |
| DiagramUpload.Uploader.UpdateItem | frontend/src/components/DiagramUpload.jsx:222-224 | one entry of one list is replaced; the other lists stay |
| DiagramUpload.Uploader.RemoveItem | frontend/src/components/DiagramUpload.jsx:226-228 | one entry of one list is removed; the other lists stay |
| DiagramUpload.Uploader.AddItem | frontend/src/components/DiagramUpload.jsx:230-232 | exactly one empty entry is appended to one list; the other lists stay |
| DiagramUpload.Uploader.Reupload | frontend/src/components/DiagramUpload.jsx:340-343 | only `analyzed` is reset; the lists stay |
| DiagramUpload.Uploader.HandleContinue | frontend/src/components/DiagramUpload.jsx:206-219 | the payload holds the session id, the five lists as edited, the base64 image and the file's media type, which is an accepted one |
| DiagramUpload.AddThenRemoveItem | frontend/src/components/DiagramUpload.jsx:226-232 | adding an entry and removing it again gives the list back |
| App.Restore | frontend/src/App.jsx:184-195 | a restored state never has step 0, an empty provider or an empty session id |
| App.RestoreEncode | frontend/src/App.jsx:184-210 | restoring a written snapshot gives the state back if and only if none of its fields holds a falsy value that the restore replaces |
| App.RestoreIsStable | frontend/src/App.jsx:184-210 | a restored state is written back and restored unchanged |
| App.LoadAfterSave | frontend/src/App.jsx:11-27 | after a save, the key reads back as the written snapshot, and other keys are untouched |
| App.LoadAfterClear | frontend/src/App.jsx:19-35 | after a clear, the key reads back as null, and other keys stay |
| App.PersistedSessionSurvivesReload | frontend/src/App.jsx:184-210 | a state that the save effect writes is restored exactly on the next load |
| App.ResetIsNotPersisted | frontend/src/App.jsx:198-238 | the reset state fails the save guard, so the removed key stays removed |
| App.StepperShowsProgress | frontend/src/App.jsx:240-244 | the stepper reads complete, then active, then pending; for a current step among the four, that step is the only active one and exactly the earlier ones are complete |
| App.ScreenGuards | frontend/src/App.jsx:328-360 | each step's screen shows exactly when the analysis view is on, the step is current and its input is there |
| App.Store.Save | frontend/src/App.jsx:11-17 | the key gets the encoded snapshot, or nothing changes when the storage fails |
| App.Store.Load | frontend/src/App.jsx:19-27 | reads the parsed entry, and null when the key is missing, the entry does not parse or the storage fails |
| App.Store.Clear | frontend/src/App.jsx:29-35 | the key is removed, or nothing changes when the storage fails |
| App.Wizard.constructor | frontend/src/App.jsx:173-181 | analysis view, step 1, no stage data, provider `gemini` |
| App.Wizard.Commit | frontend/src/App.jsx:198-210 | the state is replaced, and the save effect writes the snapshot exactly when some stage data is there |
| App.Wizard.OnMount | frontend/src/App.jsx:184-195 | a stored snapshot is applied with its defaults; a missing or unreadable one leaves the state as it is |
| App.Wizard.HandleAnalysisComplete | frontend/src/App.jsx:212-218 | sets the session id, the analysis data, the image data and step 2, and nothing else |
| App.Wizard.HandleValidationComplete | frontend/src/App.jsx:220-223 | sets the validated data and step 3, and nothing else |
| App.Wizard.HandleThreatsGenerated | frontend/src/App.jsx:225-228 | sets the threats and step 4, and nothing else |
| App.Wizard.HandleReset | frontend/src/App.jsx:230-238 | step 1 with no stage data, the key removed and not written again; the provider and the view stay |
| App.Wizard.BackToUpload | frontend/src/App.jsx:341 | step 1, all stage data kept |
| App.Wizard.BackToComponents | frontend/src/App.jsx:352 | step 2, all stage data kept |
| App.Wizard.SelectProvider | frontend/src/App.jsx:282 | only the provider changes |
| App.Wizard.SelectView | frontend/src/App.jsx:259 | only the view changes, and nothing is written |
| App.Wizard.SetLoading | frontend/src/App.jsx:175 | only the loading flag changes |

## Left out

- Network calls are left out: fetching, saving and resetting prompts, `analyzeDiagram`, and the threat generation. An analysis result enters the model as a parameter (`DiagramUpload.Outcome`). The saving, loading, error and success flags of the prompt editor are not modelled.
- Rendering and styling are left out: JSX, styles, `getCiaBadgeStyle`, the `Default`/`Modified` badge, `confirm()` and `console` logging.
- Spreadsheet generation is left out: column renaming of the detail rows, column widths, sheet names, the date in the file name and the file write. The workbook holds the shown threats themselves.
- JSON is not modelled. Storage entries are already-parsed snapshots, and `None` stands for an entry that does not parse.
- App.Store: one `available` flag makes all three storage operations fail together; the source can fail each one separately.
- App.Wizard.Commit: it runs the save effect after every handler that changes one of the effect's dependencies, even when the new value equals the old one; React skips the effect in that case.
- DiagramUpload.Uploader.HandleAnalyze: the `await` on the analysis service is modelled as one atomic step. In the source the drop zone and file input stay active while an analysis runs, so a file chosen meanwhile runs `handleFile` and the old answer then marks the new file as analysed and sets its session; this interleaving is not captured.
- DiagramUpload.Uploader.OnFileLoaded: the `FileReader` callback is modelled as a separate event. Until it fires, the preview and the payload of the previously chosen file stay.
- DiagramUpload.Uploader: the loading flag belongs to the wizard, which passes it down with `setIsLoading`. The model keeps it as a field of the uploader.
- ComponentValidator.ComponentName: `JSON.stringify(comp)` is not computed; the caller supplies its text.
- The hand-off between `DiagramUpload` and `ComponentValidator` is not modelled. The validator reads `data.components`, which the upload payload does not have.
- The submit-on-Enter handlers of the two validator inputs call the same add methods and have no members of their own.
- `TemplateSelector.jsx` and the back end are not part of this model.
