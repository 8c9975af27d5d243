/**
 * Library code the renaming core calls but whose behaviour it does not define:
 * the .NET regular-expression engine behind Regex.Replace(input, pattern,
 * replacement) and the culture-dependent TextInfo.ToTitleCase. The model takes
 * them as parameters, so every property proved holds for any such functions.
 */
module Platform {

  /** Regex.Replace(input, pattern, replacement). */
  type RegexReplaceFn = (string, string, string) -> string

  /** CultureInfo.CurrentCulture.TextInfo.ToTitleCase. */
  type TitleCaseFn = string -> string

  datatype Services = Services(regexReplace: RegexReplaceFn, toTitleCase: TitleCaseFn)
}
