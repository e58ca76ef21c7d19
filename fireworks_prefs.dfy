/**
 * The click effect's two preferences (admin/src/lib/fireworks.ts), kept in
 * `localStorage` under "fx:mode" and "fx:enabled" and read afresh on every
 * use.
 */
module FxPrefs {
  import opened Storage

  const ModeKey := "fx:mode"
  const EnabledKey := "fx:enabled"
  const DefaultMode := "fireworks"

  /**
   * `getCurrentMode` (and `getEffectMode`): the stored mode string as it is
   * when it is non-empty (it is not checked against the three known
   * modes), otherwise "fireworks".
   */
  function CurrentMode(items: map<string, string>): (m: string)
    ensures m != ""
    ensures ModeKey in items && items[ModeKey] != "" ==> m == items[ModeKey]
    ensures !(ModeKey in items && items[ModeKey] != "") ==> m == DefaultMode
  {
    if ModeKey in items && items[ModeKey] != "" then items[ModeKey] else DefaultMode
  }

  /** `isEnabled` (and `getEffectEnabled`): off exactly when the stored text is "false". */
  function IsEnabled(items: map<string, string>): (b: bool)
    ensures !b <==> StoredAs(items, EnabledKey, "false")
  {
    !(EnabledKey in items && items[EnabledKey] == "false")
  }

  predicate StoredAs(items: map<string, string>, key: string, v: string) {
    key in items && items[key] == v
  }

  /** `String(v)` for a boolean. */
  function BoolText(v: bool): (s: string)
    ensures s == "false" <==> !v
  {
    if v then "true" else "false"
  }

  /** `setEffectMode`: a later read returns the mode written, if it is non-empty. */
  method SetEffectMode(storage: LocalStorage, mode: string)
    modifies storage
    ensures storage.items == old(storage.items)[ModeKey := mode]
    ensures mode != "" ==> CurrentMode(storage.items) == mode
    ensures IsEnabled(storage.items) == IsEnabled(old(storage.items))
  {
    storage.SetItem(ModeKey, mode);
  }

  /** `setEffectEnabled`: a later read returns the flag written. */
  method SetEffectEnabled(storage: LocalStorage, v: bool)
    modifies storage
    ensures storage.items == old(storage.items)[EnabledKey := BoolText(v)]
    ensures IsEnabled(storage.items) == v
    ensures CurrentMode(storage.items) == CurrentMode(old(storage.items))
  {
    storage.SetItem(EnabledKey, BoolText(v));
  }
}
