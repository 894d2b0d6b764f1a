/** What several components share. */
module Common {
  datatype Option<+T> = None | Some(value: T)

  /** A C string ends at its first NUL. */
  function CString(s: string): (c: string)
    ensures c <= s && '\0' !in c
    ensures c == s || s[|c|] == '\0'
  {
    if s == "" || s[0] == '\0' then "" else [s[0]] + CString(s[1..])
  }
}
