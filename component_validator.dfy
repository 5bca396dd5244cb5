/** The component validation step: the user reviews the application
    description, the key features and the in-scope components extracted
    from the diagram, edits the two lists, and submits the result. */
module ComponentValidator {
  import opened Wrappers
  import opened Text
  import Lists

  /** The category options of the component menu. */
  const Categories: seq<string> := ["compute", "storage", "database", "network", "security", "cdn", "dns", "monitoring", "other"]

  /** The category selected before the user picks one. */
  const DefaultCategory := "compute"

  /** An in-scope component: a bare string, or an object whose `name` and
      `category` may be missing. */
  datatype Component = Plain(text: string) | Item(name: Option<string>, category: Option<string>)

  /** The `components` part of the analysis the step is given; each field may
      be missing. */
  datatype ExtractedComponents = ExtractedComponents(
    applicationDescription: Option<string>,
    keyFeatures: Option<seq<string>>,
    inScopeComponents: Option<seq<Component>>)

  /** What the step submits. */
  datatype ValidatedData = ValidatedData(
    applicationDescription: string,
    keyFeatures: seq<string>,
    inScopeComponents: seq<Component>)

  /** `getComponentName`: a bare string as it is, otherwise the name when it
      is a non-empty string, otherwise the component's JSON text, which the
      caller supplies as `json`. */
  function ComponentName(comp: Component, json: string): (r: string)
    ensures comp.Plain? ==> r == comp.text
    ensures comp.Item? && comp.name.Some? && comp.name.value != "" ==> r == comp.name.value
    ensures comp.Item? && (comp.name.None? || comp.name.value == "") ==> r == json
  {
    match comp
    case Plain(text) => text
    case Item(name, _) => if name.Some? && name.value != "" then name.value else json
  }

  /** `getComponentCategory`: none for a bare string, otherwise the
      component's category. */
  function ComponentCategory(comp: Component): (r: Option<string>)
    ensures r.Some? <==> comp.Item? && comp.category.Some?
    ensures r.Some? ==> r == comp.category
  {
    match comp
    case Plain(_) => None
    case Item(_, category) => category
  }

  /** The component `addComponent` appends for a name input and a selected
      category. */
  function NewComponent(nameInput: string, category: string): Component {
    Item(Some(Trim(nameInput)), Some(category))
  }

  /** A component added by `addComponent` is shown with the trimmed name
      that was typed and with the selected category. */
  lemma NewComponentDisplay(nameInput: string, category: string, json: string)
    requires Trim(nameInput) != ""
    ensures ComponentName(NewComponent(nameInput, category), json) == Trim(nameInput)
    ensures ComponentCategory(NewComponent(nameInput, category)) == Some(category)
    ensures IsTrimmed(ComponentName(NewComponent(nameInput, category), json))
    ensures !IsBlank(ComponentName(NewComponent(nameInput, category), json))
  {
    TrimmedEntryIsClean(nameInput);
  }

  /** An entry that survives `trim()` is non-blank and has no surrounding
      whitespace, so trimming it again changes nothing. */
  lemma TrimmedEntryIsClean(input: string)
    requires Trim(input) != ""
    ensures IsTrimmed(Trim(input)) && !IsBlank(Trim(input))
    ensures Trim(Trim(input)) == Trim(input)
  {
    TrimSpec(input);
    TrimIdempotent(input);
  }

  /** A feature list none of whose entries is blank or padded. */
  ghost predicate CleanEntries(entries: seq<string>) {
    forall i :: 0 <= i < |entries| ==> IsTrimmed(entries[i]) && !IsBlank(entries[i])
  }

  /** The validation step's state. */
  class Validator {
    var description: string
    var features: seq<string>
    var components: seq<Component>
    var newFeature: string
    var newComponentName: string
    var newComponentCategory: string

    /** The selected category is always one of the menu's options. */
    ghost predicate Valid()
      reads this
    {
      newComponentCategory in Categories
    }

    /** The initial state: copies of the given fields, `''` and `[]` where a
        field is missing, empty inputs and the default category. */
    constructor (data: ExtractedComponents)
      ensures Valid()
      ensures description == data.applicationDescription.GetOr("")
      ensures features == data.keyFeatures.GetOr([])
      ensures components == data.inScopeComponents.GetOr([])
      ensures newFeature == "" && newComponentName == "" && newComponentCategory == DefaultCategory
    {
      description := data.applicationDescription.GetOr("");
      features := data.keyFeatures.GetOr([]);
      components := data.inScopeComponents.GetOr([]);
      newFeature := "";
      newComponentName := "";
      newComponentCategory := DefaultCategory;
    }

    /** The description's `onChange`. */
    method SetDescription(value: string)
      modifies this
      ensures description == value
      ensures features == old(features) && components == old(components)
      ensures newFeature == old(newFeature) && newComponentName == old(newComponentName)
      ensures newComponentCategory == old(newComponentCategory)
    {
      description := value;
    }

    /** The feature input's `onChange`. */
    method SetNewFeature(value: string)
      modifies this
      ensures newFeature == value
      ensures description == old(description) && features == old(features) && components == old(components)
      ensures newComponentName == old(newComponentName) && newComponentCategory == old(newComponentCategory)
    {
      newFeature := value;
    }

    /** The component name input's `onChange`. */
    method SetNewComponentName(value: string)
      modifies this
      ensures newComponentName == value
      ensures description == old(description) && features == old(features) && components == old(components)
      ensures newFeature == old(newFeature) && newComponentCategory == old(newComponentCategory)
    {
      newComponentName := value;
    }

    /** The category menu's `onChange`; the menu only offers its options. */
    method SetNewComponentCategory(value: string)
      requires Valid() && value in Categories
      modifies this
      ensures Valid()
      ensures newComponentCategory == value
      ensures description == old(description) && features == old(features) && components == old(components)
      ensures newFeature == old(newFeature) && newComponentName == old(newComponentName)
    {
      newComponentCategory := value;
    }

    /** `addFeature`: appends the trimmed input and clears the input when
        something is left after trimming; otherwise changes nothing. */
    method AddFeature()
      modifies this
      ensures Trim(old(newFeature)) != "" ==> features == old(features) + [Trim(old(newFeature))] && newFeature == ""
      ensures Trim(old(newFeature)) == "" ==> features == old(features) && newFeature == old(newFeature)
      ensures CleanEntries(old(features)) ==> CleanEntries(features)
      ensures description == old(description) && components == old(components)
      ensures newComponentName == old(newComponentName) && newComponentCategory == old(newComponentCategory)
    {
      var entry := Trim(newFeature);
      if entry != "" {
        TrimmedEntryIsClean(newFeature);
        features := features + [entry];
        newFeature := "";
      }
    }

    /** `removeFeature(index)`: drops exactly that entry; an index outside
        the list changes nothing. */
    method RemoveFeature(index: int)
      modifies this
      ensures features == Lists.RemoveAt(old(features), index)
      ensures CleanEntries(old(features)) ==> CleanEntries(features)
      ensures description == old(description) && components == old(components)
      ensures newFeature == old(newFeature) && newComponentName == old(newComponentName)
      ensures newComponentCategory == old(newComponentCategory)
    {
      features := Lists.RemoveAt(features, index);
    }

    /** `addComponent`: appends the trimmed name with the selected category
        and clears the name input when something is left after trimming;
        the selected category stays; otherwise changes nothing. */
    method AddComponent()
      requires Valid()
      modifies this
      ensures Valid()
      ensures Trim(old(newComponentName)) != "" ==>
        components == old(components) + [NewComponent(old(newComponentName), newComponentCategory)] && newComponentName == ""
      ensures Trim(old(newComponentName)) == "" ==>
        components == old(components) && newComponentName == old(newComponentName)
      ensures description == old(description) && features == old(features) && newFeature == old(newFeature)
      ensures newComponentCategory == old(newComponentCategory)
    {
      var name := Trim(newComponentName);
      if name != "" {
        components := components + [Item(Some(name), Some(newComponentCategory))];
        newComponentName := "";
      }
    }

    /** `removeComponent(index)`: drops exactly that component. */
    method RemoveComponent(index: int)
      modifies this
      ensures components == Lists.RemoveAt(old(components), index)
      ensures description == old(description) && features == old(features)
      ensures newFeature == old(newFeature) && newComponentName == old(newComponentName)
      ensures newComponentCategory == old(newComponentCategory)
    {
      components := Lists.RemoveAt(components, index);
    }

    /** `handleContinue`: submits the current description and lists as they
        are. */
    method HandleContinue() returns (v: ValidatedData)
      ensures v.applicationDescription == description
      ensures v.keyFeatures == features
      ensures v.inScopeComponents == components
    {
      v := ValidatedData(description, features, components);
    }
  }

  /** Removing the entry just added gives the list back. */
  lemma RemoveAddedFeature(features: seq<string>, entry: string)
    ensures Lists.RemoveAt(features + [entry], |features|) == features
  {
    Lists.RemoveAppended(features, entry);
  }
}
