/**
 * The light/dark theme flag of `FinancialEducationApp` (src/learning/Components.tsx) and the
 * string it is stored as under the key "theme". Only the mapping between the flag and the stored
 * string is modelled; reading and writing the browser's storage are not.
 */
module Theme {
  import opened Wrappers

  /** The flag before any stored value is read: light mode. */
  const InitialDarkMode: bool := false

  /** The string written on every change of the flag. */
  function Encode(darkMode: bool): (saved: string)
    ensures saved == "dark" || saved == "light"
    ensures saved == "dark" <==> darkMode
  {
    if darkMode then "dark" else "light"
  }

  /**
   * The flag after the start-up read of the stored value `saved`. A missing value, and also
   * the empty string (which the source's truthiness test treats as missing), keep the flag;
   * any other value turns dark mode on exactly when it is "dark".
   */
  function Restore(saved: Option<string>, darkMode: bool): (restored: bool)
    ensures forall b :: saved == Some(Encode(b)) ==> restored == b
    ensures saved == None || saved == Some("") ==> restored == darkMode
  {
    if saved.Some? && saved.value != "" then saved.value == "dark" else darkMode
  }

  /** Reading back what was written gives the flag that was written, whatever the flag was before. */
  lemma RoundTrip(darkMode: bool, before: bool)
    ensures Restore(Some(Encode(darkMode)), before) == darkMode
  {
  }

  /** With nothing usable stored, the application starts in light mode. */
  lemma NothingStoredMeansLight()
    ensures !Restore(None, InitialDarkMode)
    ensures !Restore(Some(""), InitialDarkMode)
  {
  }

  /** Any non-empty stored value other than "dark" selects light mode. */
  lemma OtherValueMeansLight(saved: string, before: bool)
    requires saved != "" && saved != "dark"
    ensures !Restore(Some(saved), before)
  {
  }
}
