/** The five admonition types and the settings record that switches each of them on or off
    (main.ts:15-42). */
module Types {
  import opened Text

  datatype Option<T> = None | Some(value: T)

  datatype AdmType = Note | Tip | Important | Warning | Caution

  /** The types in the order both pipelines try them (main.ts:120, 153, 344). */
  const AllTypes: seq<AdmType> := [Note, Tip, Important, Warning, Caution]

  /** The type's name as it is written after `:::` and as the settings key. */
  function Name(t: AdmType): string {
    match t
    case Note => "note"
    case Tip => "tip"
    case Important => "important"
    case Warning => "warning"
    case Caution => "caution"
  }

  /** The title shown when no custom title is given: the name, upper-cased (`type.toUpperCase()`). */
  function DefaultTitle(t: AdmType): (r: string)
    ensures EqualsIgnoreCase(r, Name(t))
    ensures forall k :: 0 <= k < |r| ==> !('a' <= r[k] <= 'z')
  {
    ToUpper(Name(t))
  }

  /** The five default titles spelled out. */
  lemma DefaultTitles()
    ensures DefaultTitle(Note) == "NOTE" && DefaultTitle(Tip) == "TIP"
    ensures DefaultTitle(Important) == "IMPORTANT" && DefaultTitle(Warning) == "WARNING"
    ensures DefaultTitle(Caution) == "CAUTION"
  {
  }

  /** The title the produced container shows: the custom title when it is present and non-empty,
      otherwise the default (`customTitle || type.toUpperCase()`, main.ts:171, 213). */
  function DisplayTitle(t: AdmType, custom: Option<string>): (r: string)
    ensures custom.Some? && custom.value != "" ==> r == custom.value
    ensures custom.None? || custom.value == "" ==> r == DefaultTitle(t)
    ensures r != []
    ensures (custom.Some? && r == custom.value) || EqualsIgnoreCase(r, Name(t))
  {
    if custom.Some? && custom.value != "" then custom.value else DefaultTitle(t)
  }

  /** The `enabledAdmonitions` record. */
  datatype Settings = Settings(note: bool, tip: bool, important: bool, warning: bool, caution: bool)

  function Enabled(s: Settings, t: AdmType): bool {
    match t
    case Note => s.note
    case Tip => s.tip
    case Important => s.important
    case Warning => s.warning
    case Caution => s.caution
  }

  /** Every type starts enabled (main.ts:34-42). */
  const DefaultSettings: Settings := Settings(true, true, true, true, true)

  /** The toggle of the settings tab: one type switched, the others kept (main.ts:309). */
  function SetEnabled(s: Settings, t: AdmType, on: bool): (r: Settings)
    ensures Enabled(r, t) == on
    ensures forall u :: u != t ==> Enabled(r, u) == Enabled(s, u)
  {
    match t
    case Note => s.(note := on)
    case Tip => s.(tip := on)
    case Important => s.(important := on)
    case Warning => s.(warning := on)
    case Caution => s.(caution := on)
  }

  /** No type name is a prefix of another, so at most one `:::name` opens any text. */
  lemma NamesPrefixFree(text: string, a: AdmType, b: AdmType)
    requires StartsWith(text, Name(a)) && StartsWith(text, Name(b))
    ensures a == b
  {
    // the five names already differ in their first letter
    assert text[0] == Name(a)[0] && text[0] == Name(b)[0];
  }
}
