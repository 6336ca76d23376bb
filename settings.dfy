/**
 * The plug-in's settings record (src/settings.ts) and the constraints its
 * settings tab places on the values a user can store (src/settingsTab.ts).
 */
module Config {
  import opened Strings

  datatype DateFormat = Dashed | Compact | NoDate  // 'YYYY-MM-DD' | 'YYYYMMDD' | 'none'

  datatype Settings = Settings(
    dateFormat: DateFormat,
    replacementChar: char,
    maxFilenameLength: nat,
    userName: string)

  /** The characters no filename may hold: `[ ] # ^ | * " \ / : ? < >`. */
  predicate IsIllegal(c: char)
  {
    c == '[' || c == ']' || c == '#' || c == '^' || c == '|' || c == '*' || c == '"' ||
    c == '\\' || c == '/' || c == ':' || c == '?' || c == '<' || c == '>'
  }

  const Defaults := Settings(Dashed, '-', 200, "Shawn")

  /**
   * A replacement character the sanitiser can use: the settings tab refuses an
   * illegal one, and the sanitiser splices it after a backslash into regular
   * expressions, where only a character outside the ASCII letters and digits
   * stands for itself. It is one UTF-16 code unit, as `charAt(0)` yields.
   */
  predicate ValidReplacement(c: char)
  {
    !IsIllegal(c) && !IsUpper(c) && !IsLower(c) && !IsDigit(c) && (c as int) < 0x1_0000
  }

  /** What the settings tab lets a user store: a valid replacement and a length from its slider. */
  predicate ValidSettings(s: Settings)
  {
    ValidReplacement(s.replacementChar) && 50 <= s.maxFilenameLength <= 250
  }

  lemma {:induction false} DefaultsValid()
    ensures ValidSettings(Defaults)
  {
  }
}
